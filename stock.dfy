/** The stock panel (src/modules/stock.js): the product list and its name search, the
    serial-number inputs that follow the quantity field, the product form and what its
    submit writes, and the CSV export. */
module Stock {
  import opened Wrappers
  import opened Seqs
  import opened Text
  import opened Access
  import opened Tables

  /** A row of the `products` table. Nullable columns are `Option`s; numbers are
      integers. */
  datatype Product = Product(
    id: string,
    storeId: Option<string>,
    name: string,
    category: Option<string>,
    serialNumber: Option<string>,
    price: int,
    quantity: int,
    vendorName: Option<string>,
    locationFrom: Option<string>,
    courierCharges: Option<int>,
    createdAt: string)

  function ProductId(p: Product): string { p.id }

  function ProductStore(p: Product): Option<string> { p.storeId }

  // ================================================================ serial inputs

  /** `valuesToUse[i] || ''`: the value at a position, blank where there is none. */
  function SerialAt(values: seq<string>, i: nat): string {
    if i < |values| then values[i] else ""
  }

  /** The serial list for a quantity: one entry per unit, entry `i` taken from
      position `i` of `values`, blank past its end; no entries for a quantity of zero
      or less. */
  function Resized(values: seq<string>, count: int): (r: seq<string>)
    ensures |r| == if count > 0 then count else 0
    ensures forall i :: 0 <= i < |r| && i < |values| ==> r[i] == values[i]
    ensures forall i :: |values| <= i < |r| ==> r[i] == ""
  {
    if count <= 0 then [] else seq(count, i requires 0 <= i < count => SerialAt(values, i))
  }

  /** The list `renderSerialInputs` draws from: the serials passed in when there are
      any, otherwise the values the inputs hold now. */
  function ValuesToUse(existing: seq<string>, current: seq<string>): (r: seq<string>)
    ensures |existing| > 0 ==> r == existing
    ensures |existing| == 0 ==> r == current
  {
    if |existing| > 0 then existing else current
  }

  /** The `for` loop of `renderSerialInputs`: one input per unit, pre-filled by
      position. */
  method SerialLoop(count: int, values: seq<string>) returns (vals: seq<string>)
    ensures |vals| == if count > 0 then count else 0
    ensures forall i :: 0 <= i < |vals| && i < |values| ==> vals[i] == values[i]
    ensures forall i :: |values| <= i < |vals| ==> vals[i] == ""
    ensures vals == Resized(values, count)
  {
    vals := [];
    var i := 0;
    while i < count
      invariant 0 <= i <= (if count > 0 then count else 0)
      invariant |vals| == i
      invariant forall k :: 0 <= k < i ==> vals[k] == SerialAt(values, k)
    {
      vals := vals + [SerialAt(values, i)];
      i := i + 1;
    }
  }

  /** Shrinking to a length no larger than an earlier one loses nothing more: growing a
      list and cutting it back gives what cutting it directly gives. */
  lemma ResizeTwice(values: seq<string>, m: int, n: int)
    requires n <= m
    ensures Resized(Resized(values, m), n) == Resized(values, n)
  {
    if n > 0 {
      var r := Resized(Resized(values, m), n);
      forall i | 0 <= i < n ensures r[i] == Resized(values, n)[i] {
        assert Resized(values, m)[i] == SerialAt(values, i);
      }
    }
  }

  /** The entries a list keeps through a resize: all of them, when the quantity is at
      least its length, followed by blanks. */
  lemma ResizeKeepsWithinCount(values: seq<string>, count: int)
    requires |values| <= count
    ensures Resized(values, count)[..|values|] == values
    ensures forall i :: |values| <= i < count ==> Resized(values, count)[i] == ""
  {
  }

  /** Cutting the quantity below the number of entries drops the extras for good:
      raising it again brings back blanks. */
  lemma ShrinkThenGrowLosesEntries()
    ensures Resized(Resized(["A", "B"], 1), 2) == ["A", ""]
  {
    assert Resized(["A", "B"], 1) == ["A"];
  }

  // ================================================================ serial_number

  /** `v.trim() !== ''`. */
  predicate IsFilled(v: string) {
    Trim(v) != ""
  }

  /** The entries that survive the save filter, in order. */
  function FilledEntries(values: seq<string>): seq<string> {
    Filter(values, IsFilled)
  }

  /** The saved `serial_number`: the filled entries joined with commas; empty exactly
      when no entry is filled. */
  function SerialString(values: seq<string>): (r: string)
    ensures r == "" <==> FilledEntries(values) == []
  {
    var parts := FilledEntries(values);
    assert |parts| > 0 ==> parts[0] in parts && parts[0] != "";
    JoinEmpty(parts, ',');
    Join(parts, ',')
  }

  /** What an edit starts from: the stored text split on commas, or nothing when the
      column is null or empty. */
  function StoredSerials(stored: Option<string>): (r: seq<string>)
    ensures !Truthy(stored) ==> r == []
    ensures Truthy(stored) ==> |r| == Occurrences(stored.value, ',') + 1 && Join(r, ',') == stored.value
  {
    if Truthy(stored) then JoinSplit(stored.value, ','); Split(stored.value, ',') else []
  }

  /** Saving and then editing gives back exactly the filled entries, in order, when no
      entry contains a comma; with no filled entry the column is `''` and the list is
      empty. */
  lemma SerialRoundTrip(values: seq<string>)
    requires forall i :: 0 <= i < |values| ==> ',' !in values[i]
    ensures StoredSerials(Some(SerialString(values))) == FilledEntries(values)
  {
    var parts := FilledEntries(values);
    if |parts| > 0 {
      assert parts[0] in parts;
      assert parts[0] != "" by {
        assert Trim("") == "";
      }
      JoinEmpty(parts, ',');
      forall k | 0 <= k < |parts| ensures ',' !in parts[k] {
        assert parts[k] in parts;
      }
      SplitJoin(parts, ',');
    }
  }

  /** The saved list never has more entries than inputs, and has fewer whenever an
      input is blank: the stored list can fall short of the quantity. */
  lemma SerialsCanFallShortOfQuantity()
    ensures |StoredSerials(Some(SerialString(Resized(["A"], 2))))| == 1
  {
    var values := Resized(["A"], 2);
    assert values == ["A", ""];
    assert !IsFilled("") by { assert Trim("") == ""; }
    assert IsFilled("A") by {
      assert TrimStart("A") == "A";
      assert TrimEnd("A") == "A";
    }
    assert values[1..] == [""];
    assert FilledEntries(values) == ["A"];
    SerialRoundTrip(values);
  }

  /** `n` blank entries. */
  function Blanks(n: nat): seq<string> {
    seq(n, i => "")
  }

  lemma ResizeAppendsBlanks(values: seq<string>, count: int)
    requires |values| <= count
    ensures Resized(values, count) == values + Blanks(count - |values|)
  {
  }

  lemma {:induction false} NoneFilled(n: nat)
    ensures FilledEntries(Blanks(n)) == []
    decreases n
  {
    if n > 0 {
      assert Trim("") == "";
      assert Blanks(n)[1..] == Blanks(n - 1);
      NoneFilled(n - 1);
    }
  }

  /** Filled entries followed by blanks save as the filled entries. */
  lemma FilledThenBlanks(pieces: seq<string>, n: nat)
    requires forall k :: 0 <= k < |pieces| ==> IsFilled(pieces[k])
    ensures FilledEntries(pieces + Blanks(n)) == pieces
  {
    FilterConcat(pieces, Blanks(n), IsFilled);
    FilterKeepsAllIff(pieces, IsFilled);
    NoneFilled(n);
  }

  /** Opening a product whose stored serials are all filled, with at least as many
      units as serials, and saving without touching them writes the same text back. */
  lemma EditSaveKeepsSerialNumber(stored: string, quantity: int)
    requires stored != ""
    requires forall k :: 0 <= k < |Split(stored, ',')| ==> IsFilled(Split(stored, ',')[k])
    requires |Split(stored, ',')| <= quantity
    ensures SerialString(Resized(StoredSerials(Some(stored)), quantity)) == stored
  {
    var pieces := Split(stored, ',');
    ResizeAppendsBlanks(pieces, quantity);
    FilledThenBlanks(pieces, quantity - |pieces|);
    JoinSplit(stored, ',');
  }

  // ================================================================ the form

  /** The product form when Save is pressed. `price` and `courier` are what
      `parseFloat` reads from their fields (`None`: NaN); `quantity` is the field's
      text, read with `parseInt`. */
  datatype ProductForm = ProductForm(
    id: string,
    name: string,
    price: Option<int>,
    quantity: string,
    vendor: string,
    location: string,
    courier: Option<int>)

  /** The form "Add Product" opens with. */
  function NewForm(): ProductForm {
    ProductForm("", "", None, "", "", "", None)
  }

  /** The form "Edit" opens with, pre-filled from the row. */
  function EditForm(p: Product): ProductForm {
    ProductForm(p.id, p.name, Some(p.price), IntToString(p.quantity), OrEmpty(p.vendorName),
                OrEmpty(p.locationFrom), Some(p.courierCharges.GetOr(0)))
  }

  /** The columns a save writes. */
  datatype ProductPayload = ProductPayload(
    name: string,
    serialNumber: string,
    price: int,
    quantity: int,
    vendorName: string,
    locationFrom: string,
    courierCharges: int,
    storeId: Option<string>)

  /** `parseInt(text) || 0`. */
  function QuantityOf(text: string): int {
    ParseInt(text).GetOr(0)
  }

  /** The submit handler's decision: no write when the name is empty, otherwise an
      update of the form's id, or an insert when the id is empty. */
  function ProductSave(u: User, form: ProductForm, serialInputs: seq<string>): (w: Write<ProductPayload>)
    ensures w.NoWrite? <==> form.name == ""
    ensures !w.NoWrite? ==> w.payload.storeId == u.storeId && w.payload.name == form.name
  {
    var payload := ProductPayload(form.name, SerialString(serialInputs), form.price.GetOr(0),
                                  QuantityOf(form.quantity), form.vendor, form.location,
                                  form.courier.GetOr(0), u.storeId);
    if form.name == "" then NoWrite
    else if form.id != "" then UpdateRow(form.id, payload)
    else InsertRow(payload)
  }

  /** What a save writes: nothing without a name; otherwise the form's values, with 0
      for a price, quantity or courier charge that is not a number, the serial text
      built from the inputs and the store forced to the actor's; an update exactly
      when the form carries an id. */
  lemma ProductSaveRules(u: User, form: ProductForm, serialInputs: seq<string>)
    ensures ProductSave(u, form, serialInputs).NoWrite? <==> form.name == ""
    ensures ProductSave(u, form, serialInputs).UpdateRow? <==> form.name != "" && form.id != ""
    ensures ProductSave(u, form, serialInputs).UpdateRow? ==> ProductSave(u, form, serialInputs).id == form.id
    ensures !ProductSave(u, form, serialInputs).NoWrite? ==>
      var p := ProductSave(u, form, serialInputs).payload;
      && p.storeId == u.storeId
      && p.name == form.name
      && p.serialNumber == SerialString(serialInputs)
      && (form.price.None? ==> p.price == 0) && (form.price.Some? ==> p.price == form.price.value)
      && (ParseInt(form.quantity).None? ==> p.quantity == 0)
      && (ParseInt(form.quantity).Some? ==> p.quantity == ParseInt(form.quantity).value)
      && (form.courier.None? ==> p.courierCharges == 0)
      && (form.courier.Some? ==> p.courierCharges == form.courier.value)
      && p.vendorName == form.vendor && p.locationFrom == form.location
  {
  }

  /** A quantity field that is empty or negative is written as it reads: there is no
      clamping, so a negative stock count is saved. */
  lemma NegativeQuantityIsSaved(u: User)
    ensures var w := ProductSave(u, ProductForm("", "Battery", Some(100), "-3", "", "", None), []);
            w.InsertRow? && w.payload.quantity == -3
  {
    assert ParseInt("-3") == Some(-3) by {
      ParseIntOfIntToString(-3);
      assert IntToString(-3) == "-3";
    }
  }

  /** The row an update leaves: the payload's columns over the old row. */
  function Updated(p: Product, w: ProductPayload): (r: Product)
    ensures r.id == p.id
  {
    p.(name := w.name, serialNumber := Some(w.serialNumber), price := w.price, quantity := w.quantity,
       vendorName := Some(w.vendorName), locationFrom := Some(w.locationFrom),
       courierCharges := Some(w.courierCharges), storeId := w.storeId)
  }

  function ApplyPayload(w: ProductPayload): Product -> Product {
    (p: Product) => Updated(p, w)
  }

  /** The row an insert adds; the backend supplies the id and the creation time. */
  function Inserted(w: ProductPayload, newId: string, createdAt: string): Product {
    Product(newId, w.storeId, w.name, None, Some(w.serialNumber), w.price, w.quantity,
            Some(w.vendorName), Some(w.locationFrom), Some(w.courierCharges), createdAt)
  }

  /** Opening a row for edit and saving it untouched rewrites it unchanged, when its
      store is the actor's, its optional text columns are set, and its serials are
      filled entries that fit its quantity. */
  lemma EditThenSaveKeepsProduct(u: User, p: Product)
    requires p.name != "" && p.id != ""
    requires p.storeId == u.storeId
    requires p.vendorName.Some? && p.locationFrom.Some? && p.courierCharges.Some?
    requires p.serialNumber.Some? && p.serialNumber.value != ""
    requires var pieces := Split(p.serialNumber.value, ',');
             |pieces| <= p.quantity && forall k :: 0 <= k < |pieces| ==> IsFilled(pieces[k])
    ensures var inputs := Resized(StoredSerials(p.serialNumber), p.quantity);
            var w := ProductSave(u, EditForm(p), inputs);
            w == UpdateRow(p.id, w.payload) && Updated(p, w.payload) == p
  {
    ParseIntOfIntToString(p.quantity);
    EditSaveKeepsSerialNumber(p.serialNumber.value, p.quantity);
  }

  // ================================================================ list, search, rows

  /** The search predicate: the lower-cased name contains the lower-cased term. */
  function NameMatches(term: string): Product -> bool {
    (p: Product) => Includes(Lower(p.name), Lower(term))
  }

  /** The list the search box shows: the fetched products whose name matches. */
  function SearchByName(products: seq<Product>, term: string): (r: seq<Product>)
    ensures IsSubsequence(r, products)
    ensures forall p :: p in r <==> p in products && NameMatches(term)(p)
  {
    FilterIsSubsequence(products, NameMatches(term));
    Filter(products, NameMatches(term))
  }

  /** The lower-cased term occurs at some position of the lower-cased name. */
  ghost predicate NameContains(p: Product, term: string) {
    exists i :: OccursAt(Lower(p.name), Lower(term), i)
  }

  lemma SearchMembership(products: seq<Product>, term: string, p: Product)
    ensures p in SearchByName(products, term) <==> p in products && NameContains(p, term)
  {
    assert NameMatches(term)(p) == Includes(Lower(p.name), Lower(term));
    IncludesIff(Lower(p.name), Lower(term));
  }

  /** The search keeps, in their fetched order, exactly the products whose lower-cased
      name contains the lower-cased term at some position; an empty term keeps
      everything. */
  lemma SearchByNameSpec(products: seq<Product>, term: string)
    ensures forall p :: p in SearchByName(products, term) <==>
      p in products && NameContains(p, term)
    ensures IsSubsequence(SearchByName(products, term), products)
    ensures term == "" ==> SearchByName(products, term) == products
  {
    if term == "" {
      SearchEmptyTerm(products);
    }
    FilterIsSubsequence(products, NameMatches(term));
    forall p: Product ensures p in SearchByName(products, term) <==> p in products && NameContains(p, term) {
      SearchMembership(products, term, p);
    }
  }

  lemma SearchEmptyTerm(products: seq<Product>)
    ensures SearchByName(products, "") == products
  {
    forall i | 0 <= i < |products| ensures NameMatches("")(products[i]) {
    }
    FilterKeepsAllIff(products, NameMatches(""));
  }

  /** What a table row shows: the category or `-`, the quantity with its low-stock
      badge, the store name (or `Unknown`) for a super admin only, and the edit and
      delete buttons for a store admin only. */
  datatype ProductRowView = ProductRowView(
    name: string,
    category: string,
    quantity: int,
    lowStock: bool,
    price: int,
    store: Option<string>,
    editable: bool)

  function RowView(p: Product, storeName: Option<string>, u: User): (v: ProductRowView)
    ensures v.name == p.name && v.quantity == p.quantity && v.price == p.price
    ensures v.lowStock <==> p.quantity < 5
    ensures !Truthy(p.category) ==> v.category == "-"
    ensures v.store.Some? <==> IsSuperAdmin(u)
    ensures IsSuperAdmin(u) && !Truthy(storeName) ==> v.store == Some("Unknown")
    ensures IsSuperAdmin(u) && Truthy(storeName) ==> v.store == storeName
    ensures v.editable <==> IsStoreAdmin(u)
  {
    ProductRowView(p.name, if Truthy(p.category) then p.category.value else "-", p.quantity,
                   p.quantity < 5, p.price,
                   if IsSuperAdmin(u) then Some(if Truthy(storeName) then storeName.value else "Unknown") else None,
                   IsStoreAdmin(u))
  }

  /** The red badge marks exactly the products whose edit form offers fewer than five
      serial inputs. */
  lemma LowStockIffFewSerialSlots(p: Product, storeName: Option<string>, u: User, values: seq<string>)
    ensures RowView(p, storeName, u).lowStock <==> |Resized(values, p.quantity)| < 5
  {
  }

  // ================================================================ CSV export

  const ProductColumns: seq<string> :=
    ["ID", "Name", "Price", "Quantity", "Vendor", "Location", "Courier Charges", "Serials", "Created At"]

  function ProductHeader(): string {
    Join(ProductColumns, ',')
  }

  /** The cells of a product's CSV line: commas in name, vendor and location become
      spaces, commas between serials become semicolons, a missing courier charge is 0,
      the creation time goes through the viewer's date format. */
  function ProductFields(p: Product, formatDate: string -> string): seq<string> {
    [p.id, ReplaceAll(p.name, ',', ' '), IntToString(p.price), IntToString(p.quantity),
     ReplaceAll(OrEmpty(p.vendorName), ',', ' '), ReplaceAll(OrEmpty(p.locationFrom), ',', ' '),
     IntToString(p.courierCharges.GetOr(0)), ReplaceAll(OrEmpty(p.serialNumber), ',', ';'),
     formatDate(p.createdAt)]
  }

  function ProductRow(p: Product, formatDate: string -> string): string {
    Join(ProductFields(p, formatDate), ',')
  }

  /** One line per product, in list order. */
  function ProductRows(products: seq<Product>, formatDate: string -> string): (r: seq<string>)
    ensures |r| == |products|
    ensures forall i :: 0 <= i < |products| ==> r[i] == ProductRow(products[i], formatDate)
    decreases |products|
  {
    if |products| == 0 then [] else [ProductRow(products[0], formatDate)] + ProductRows(products[1..], formatDate)
  }

  /** The exported text; nothing at all for an empty list. */
  function ProductCsv(products: seq<Product>, formatDate: string -> string): (r: Option<string>)
    ensures r.None? <==> |products| == 0
    ensures r.Some? ==> ProductHeader() + "\n" <= r.value
  {
    if |products| == 0 then None
    else Some(ProductHeader() + "\n" + Join(ProductRows(products, formatDate), '\n'))
  }

  /** The header names nine columns. */
  lemma ProductHeaderColumns()
    ensures Split(ProductHeader(), ',') == ProductColumns && |ProductColumns| == 9
    ensures '\n' !in ProductHeader()
  {
    forall k | 0 <= k < |ProductColumns| ensures ',' !in ProductColumns[k] && '\n' !in ProductColumns[k] {
      ColumnAvoids(k);
    }
    SplitJoin(ProductColumns, ',');
    JoinAvoids(ProductColumns, ',', '\n');
  }

  lemma ColumnAvoids(k: nat)
    requires k < |ProductColumns|
    ensures ',' !in ProductColumns[k] && '\n' !in ProductColumns[k]
  {
    var c := ProductColumns[k];
    forall i | 0 <= i < |c| ensures c[i] != ',' && c[i] != '\n' {
    }
  }

  /** A product's line has exactly the header's nine cells, and they read back as the
      sanitised values, when the id and the formatted date hold no comma. */
  lemma ProductRowFields(p: Product, formatDate: string -> string)
    requires ',' !in p.id && ',' !in formatDate(p.createdAt)
    ensures Split(ProductRow(p, formatDate), ',') == ProductFields(p, formatDate)
    ensures |Split(ProductRow(p, formatDate), ',')| == |Split(ProductHeader(), ',')|
    ensures ',' !in ProductFields(p, formatDate)[1] && ',' !in ProductFields(p, formatDate)[4]
    ensures ',' !in ProductFields(p, formatDate)[5] && ',' !in ProductFields(p, formatDate)[7]
  {
    var fields := ProductFields(p, formatDate);
    FieldsAvoidComma(p, formatDate);
    SplitJoin(fields, ',');
    ProductHeaderColumns();
  }

  lemma FieldsAvoidComma(p: Product, formatDate: string -> string)
    requires ',' !in p.id && ',' !in formatDate(p.createdAt)
    ensures |ProductFields(p, formatDate)| == 9
    ensures forall k :: 0 <= k < 9 ==> ',' !in ProductFields(p, formatDate)[k]
  {
    NumberAvoids(p.price);
    NumberAvoids(p.quantity);
    NumberAvoids(p.courierCharges.GetOr(0));
  }

  lemma RowAvoidsNewline(p: Product, formatDate: string -> string)
    requires forall k :: 0 <= k < 9 ==> '\n' !in ProductFields(p, formatDate)[k]
    ensures '\n' !in ProductRow(p, formatDate)
  {
    JoinAvoids(ProductFields(p, formatDate), ',', '\n');
  }

  /** The export is the header line followed by one line per product of the whole
      fetched list, in its order, when no cell holds a line break; an empty list
      exports nothing. */
  lemma ProductCsvLines(products: seq<Product>, formatDate: string -> string)
    requires forall i, k :: 0 <= i < |products| && 0 <= k < 9 ==> '\n' !in ProductFields(products[i], formatDate)[k]
    ensures |products| == 0 <==> ProductCsv(products, formatDate).None?
    ensures |products| > 0 ==> Split(ProductCsv(products, formatDate).value, '\n') == [ProductHeader()] + ProductRows(products, formatDate)
  {
    if |products| > 0 {
      var rows := ProductRows(products, formatDate);
      forall i | 0 <= i < |rows| ensures '\n' !in rows[i] {
        RowAvoidsNewline(products[i], formatDate);
      }
      ProductHeaderColumns();
      LinesSplit(ProductHeader(), rows);
    }
  }

  // ================================================================ the panel

  /** The panel's own state: the fetched list (`allProductsData`), the super admin's
      store selection (`currentStoreFilter`), and the serial inputs of the form, with
      the values they were drawn with (what `form.reset()` puts back). */
  class StockPanel {
    const user: User
    var products: seq<Product>
    var storeFilter: Option<string>
    var serialValues: seq<string>
    var serialDefaults: seq<string>

    /** `initStock`: no selection, no serial inputs, then the first fetch. */
    constructor (user: User, table: Table<Product>)
      ensures this.user == user && storeFilter == None
      ensures products == Narrow(table.rows, ProductStore, ProductFilter(user, None))
      ensures serialValues == [] && serialDefaults == []
    {
      this.user := user;
      storeFilter := None;
      serialValues, serialDefaults := [], [];
      products := Narrow(table.rows, ProductStore, ProductFilter(user, None));
    }

    /** `fetchStock`: the products query with the filter the flags select. */
    method Fetch(table: Table<Product>)
      modifies this`products
      ensures products == Narrow(table.rows, ProductStore, ProductFilter(user, storeFilter))
    {
      products := Narrow(table.rows, ProductStore, ProductFilter(user, storeFilter));
    }

    /** A change of the store selector, which only a super admin has. */
    method ChangeStoreFilter(value: string, table: Table<Product>)
      modifies this`storeFilter, this`products
      ensures IsSuperAdmin(user) ==> storeFilter == Some(value)
      ensures !IsSuperAdmin(user) ==> storeFilter == old(storeFilter) && products == old(products)
      ensures IsSuperAdmin(user) ==> products == Narrow(table.rows, ProductStore, ProductFilter(user, storeFilter))
    {
      if IsSuperAdmin(user) {
        storeFilter := Some(value);
        Fetch(table);
      }
    }

    /** `renderSerialInputs(count, existing)`: the inputs are redrawn from the passed
        serials, or from their own current values when none are passed. */
    method RenderSerialInputs(count: int, existing: seq<string>)
      modifies this`serialValues, this`serialDefaults
      ensures serialValues == Resized(ValuesToUse(existing, old(serialValues)), count)
      ensures serialDefaults == serialValues
    {
      if count <= 0 {
        serialValues := [];
      } else {
        serialValues := SerialLoop(count, ValuesToUse(existing, serialValues));
      }
      serialDefaults := serialValues;
    }

    /** Typing into the quantity field: the inputs are resized to `parseInt(text) || 0`
        around what is typed in them, so edits survive the resize. */
    method OnQuantityInput(text: string)
      modifies this`serialValues, this`serialDefaults
      ensures serialValues == Resized(old(serialValues), QuantityOf(text))
      ensures serialDefaults == serialValues
    {
      RenderSerialInputs(QuantityOf(text), serialValues);
    }

    /** Typing into serial input `i`. */
    method TypeSerial(i: nat, value: string)
      modifies this`serialValues
      ensures i < |old(serialValues)| ==> serialValues == old(serialValues)[i := value]
      ensures i >= |old(serialValues)| ==> serialValues == old(serialValues)
    {
      if i < |serialValues| {
        serialValues := serialValues[i := value];
      }
    }

    /** "Add Product", offered to a store admin: a blank form and no serial inputs. */
    method OpenAdd() returns (form: Option<ProductForm>)
      modifies this`serialValues, this`serialDefaults
      ensures IsStoreAdmin(user) ==> form == Some(NewForm()) && serialValues == [] && serialDefaults == []
      ensures !IsStoreAdmin(user) ==> form == None && serialValues == old(serialValues) && serialDefaults == old(serialDefaults)
    {
      form := None;
      if IsStoreAdmin(user) {
        RenderSerialInputs(0, []);
        form := Some(NewForm());
      }
    }

    /** The edit button of row `id`, offered to a store admin: the form pre-filled from
        the fetched product with that id, and one serial input per unit drawn from its
        stored serials (from the inputs as they are when it has none stored). */
    method OpenEdit(id: string) returns (form: Option<ProductForm>)
      modifies this`serialValues, this`serialDefaults
      ensures var found := Find(products, KeyIs(ProductId, id));
              if IsStoreAdmin(user) && found.Some? then
                form == Some(EditForm(found.value))
                && serialValues == Resized(ValuesToUse(StoredSerials(found.value.serialNumber), old(serialValues)), found.value.quantity)
                && serialDefaults == serialValues
              else
                form == None && serialValues == old(serialValues) && serialDefaults == old(serialDefaults)
    {
      form := None;
      if IsStoreAdmin(user) {
        var found := Find(products, KeyIs(ProductId, id));
        if found.Some? {
          var p := found.value;
          RenderSerialInputs(p.quantity, StoredSerials(p.serialNumber));
          form := Some(EditForm(p));
        }
      }
    }

    /** Closing the form: `form.reset()` puts every serial input back to the value it
        was drawn with. */
    method Close()
      modifies this`serialValues
      ensures serialValues == serialDefaults
    {
      serialValues := serialDefaults;
    }

    /** Save: the write ProductSave decides, carried out on the table; on success the
        list is fetched again and the form closed. */
    method Submit(form: ProductForm, newId: string, createdAt: string, table: Table<Product>) returns (outcome: Outcome)
      requires table.Valid() && table.key == ProductId
      modifies this`products, this`serialValues, table
      ensures table.Valid()
      ensures var w := ProductSave(user, form, old(serialValues));
              && (w.NoWrite? ==> outcome == Invalid)
              && (w.InsertRow? ==>
                    (outcome == Done <==> !HasKey(old(table.rows), ProductId, newId))
                    && table.rows == (if outcome == Done then old(table.rows) + [Inserted(w.payload, newId, createdAt)] else old(table.rows)))
              && (w.UpdateRow? ==>
                    outcome == Done && table.rows == UpdateWhere(old(table.rows), KeyIs(ProductId, w.id), ApplyPayload(w.payload)))
      ensures outcome == Done ==> products == Narrow(table.rows, ProductStore, ProductFilter(user, storeFilter))
                                  && serialValues == serialDefaults
      ensures outcome != Done ==> table.rows == old(table.rows) && products == old(products) && serialValues == old(serialValues)
    {
      var w := ProductSave(user, form, serialValues);
      if w.NoWrite? {
        outcome := Invalid;
      } else {
        var ok := table.Commit(w, (p: ProductPayload) => Inserted(p, newId, createdAt), ApplyPayload);
        outcome := if ok then Done else BackendError;
        if ok {
          Fetch(table);
          Close();
        }
      }
    }

    /** The export button: the CSV of the whole fetched list, nothing for an empty
        one. */
    method Export(formatDate: string -> string) returns (csv: Option<string>)
      ensures csv == ProductCsv(products, formatDate)
      ensures csv.None? <==> |products| == 0
    {
      csv := ProductCsv(products, formatDate);
    }

    /** The delete button, offered to a store admin: after confirmation the row is
        deleted and the list fetched again. */
    method Delete(id: string, confirmed: bool, table: Table<Product>) returns (outcome: Outcome)
      requires table.Valid()
      modifies this`products, table
      ensures table.Valid()
      ensures outcome == (if !IsStoreAdmin(user) then NotOffered else if !confirmed then Declined else Done)
      ensures outcome == Done ==> table.rows == Filter(old(table.rows), Not(KeyIs(table.key, id)))
      ensures outcome == Done ==> products == Narrow(table.rows, ProductStore, ProductFilter(user, storeFilter))
      ensures outcome != Done ==> table.rows == old(table.rows) && products == old(products)
    {
      if !IsStoreAdmin(user) {
        outcome := NotOffered;
      } else if !confirmed {
        outcome := Declined;
      } else {
        table.Delete(id);
        Fetch(table);
        outcome := Done;
      }
    }
  }

  /** Editing a product that has no stored serials shows the serials left in the
      inputs by the previous form, which `form.reset()` does not clear. */
  lemma EditReusesLeftoverSerials(p: Product, leftover: seq<string>)
    requires !Truthy(p.serialNumber)
    ensures Resized(ValuesToUse(StoredSerials(p.serialNumber), leftover), p.quantity) == Resized(leftover, p.quantity)
    ensures forall i :: 0 <= i < p.quantity && i < |leftover| ==>
              Resized(ValuesToUse(StoredSerials(p.serialNumber), leftover), p.quantity)[i] == leftover[i]
  {
  }
}
