# Repair-shop panel: verified model of the panels' domain logic

The system is a browser panel for a chain of phone-repair shops, built on a hosted
database. Two kinds of actor use it:

- a **store admin**, whose user record carries a `store_id`;
- a **super admin**, whose role is `super_admin`.

The two flags are independent (`!!user.store_id` and `role === 'super_admin'`), so one
user can be both. The stock, repairs and requests panels compute both flags. The history
panel computes only the super-admin flag, and the stores panel only tests the role.

This project models the five panels' event handlers as Dafny. The interesting logic sits in those handlers:

- **Stock** (`src/modules/stock.js`): the product list and its name search. The
  serial-number inputs grow and shrink with the quantity field. On save they are packed
  into one comma-separated `serial_number`, and they are unpacked again when a product is
  edited. The module also covers what a save writes and the CSV export.
- **Repair board** (`src/modules/repairs.js`): tickets are grouped into six fixed status
  columns, each with a count and a DOM id made from the status name. The module also
  covers the ticket form and what its save writes.
- **Repair history** (`src/modules/repair_history.js`): a search over five fields, a
  CSV export whose columns depend on the role, and a delete guarded by a passphrase and
  a confirmation.
- **Stock requests** (`src/modules/requests.js`): the list is scoped to the actor's store.
  New requests are created Pending, and only a super admin can change a request's status,
  only while it is not Fulfilled.
- **Stores** (`src/modules/stores.js`): create, edit and delete of stores, for the super
  admin only.

Layout:

- `wrappers.dfy`: `Option`.
- `seqs.dfy`: `filter`, `find` and the per-row rewrite an update performs.
- `text.dfy`: the JavaScript string operations the handlers use, with their round trips:
  - whitespace and `trim`;
  - ASCII `toLowerCase`;
  - `includes`;
  - a one-character `replace(/,/g, …)`;
  - `split` and `join` on one character;
  - `parseInt`;
  - number-to-text.
- `access.dfy`: the user record, the two flags, and each panel's list filter.
- `tables.dfy`: a backing collection as an in-memory table keyed by `id`, with insert
  (refused on a taken id), update by id and delete by id.
- `stock.dfy`, `repairs.dfy`, `history.dfy`, `requests.dfy`, `stores.dfy`: one module per
  panel.

Each panel's module-level variables (`allProductsData`, `repairs`, `currentStoreFilter`,
`stores`, …) become the fields of a class. Each event handler becomes a method that
`modifies` exactly what the handler reassigns. The pure projections become functions,
and the properties are proved as lemmas about those functions:

- the search filters;
- the buckets;
- the payloads;
- the CSV lines.

Behaviour of the code that the model keeps as it is:

- **Quantity and price.** Neither is clamped: the code writes `parseInt(…) || 0` and
  `parseFloat(…) || 0` unchanged, so a negative quantity is saved
  (`Stock.NegativeQuantityIsSaved`).
- **Repair form fields.** The submit handler checks no field. Customer, device, model and
  serial carry only the browser's `required` attribute. The part name has none, so a
  ticked part change with an empty part name is saved (`Repairs.PartNameNotRequired`).
- **Who may save a repair.** The submit handler refuses only an actor without a store id
  (`!isStoreAdmin`). A super admin who also carries a store id can save
  (`Repairs.RepairSaveRules`).
- **Cancelled requests.** Only a Fulfilled request hides its status control. A Cancelled
  request can still be moved (`Requests.CancelledIsNotFinal`).
- **Store delete.** Deleting a store deletes that one row. No product, ticket or request
  is touched (`Stores.StoresPanel.Delete` modifies only the stores table).
- **Exports.** Both exports are built from the whole fetched list, not from the searched
  rows on screen (`Stock.StockPanel.Export`, `History.HistoryPanel.Export`,
  `History.ExportIgnoresSearch`).
- **Line breaks in exported cells.** The exports replace commas but not line breaks. The
  customer's problem comes from a textarea (`src/modules/repairs.js:93`, `:325`), so a
  complaint typed over several lines puts more lines in the history export than there
  are tickets. The line-count lemmas (`History.HistoryCsvLines`, `Stock.ProductCsvLines`)
  hold only when no cell holds a line break.
- **Product save.** The stock panel's submit has no role check of its own. Only the
  buttons that open the form are gated.
- **Undefined identifiers.** In `stock.js` some names are used but never defined: `products`
  and `fetchProducts`. Two lookups also use ids that do not match the markup: the table
  body and the export button. The model takes the evident intent: `products` is
  `allProductsData`, `fetchProducts` is `fetchStock`, and the lookups find their elements.

## Model

| member | source | states |
|---|---|---|
| `Seqs.Filter` | src/modules/stock.js:219 | `Array.prototype.filter`: the result is no longer than the input, and holds exactly the input elements that satisfy the predicate |
| `Seqs.FilterIsSubsequence` | src/modules/repairs.js:231 | a filter keeps the order of what it keeps |
| `Seqs.FilterKeepsAllIff` | src/modules/stock.js:219 | a filter returns its whole input exactly when every element passes (both directions) |
| `Seqs.Find` | src/modules/stock.js:339 | `find`: nothing exactly when no element matches, otherwise the first match |
| `Seqs.UpdateWhere` | src/modules/stores.js:137 | an update rewrites exactly the matching rows and leaves the others and the length unchanged |
| `Text.Lower` | src/modules/stock.js:218 | ASCII `toLowerCase`: same length, each character lower-cased |
| `Text.IncludesIff` | src/modules/stock.js:219 | `includes` holds exactly when the term occurs at some position |
| `Text.Includes` | src/modules/stock.js:219 | an empty term is included in every text, and a term longer than the text never is |
| `Text.Trim` | src/modules/stock.js:291 | `v.trim() === ''` exactly when every character of `v` is whitespace |
| `Text.JoinSeparators` | src/modules/stock.js:291 | `join(sep)` of n pieces that hold no separator puts exactly one separator between each two: the text holds n - 1 of them |
| `Text.JoinEmpty` | src/modules/stock.js:291 | a join is empty only when it has a single, empty piece |
| `Text.ParseInt` | src/modules/stock.js:294 | a blank field reads as NaN; a field of digits alone reads as their decimal value |
| `Text.Split` | src/modules/stock.js:267 | `split(',')` gives one more piece than there are separators, and no piece holds the separator |
| `Text.JoinSplit` | src/modules/stock.js:267 | joining the pieces of a split gives back the text |
| `Text.SplitJoin` | src/modules/stock.js:291 | splitting a join of one or more separator-free parts gives back the parts |
| `Text.LinesSplit` | src/modules/stock.js:356-366 | a header line followed by newline-joined rows splits back into header and rows |
| `Text.ParseIntOfIntToString` | src/modules/stock.js:294 | `parseInt` reads back any integer's decimal text, sign included |
| `Text.ReplaceAll` | src/modules/stock.js:360-363 | `replace(/,/g, c)`: same length, each comma replaced, no comma left when `c` is not a comma |
| `Access.NarrowSpec` | src/modules/stock.js:157-159 | an `.eq('store_id', v)` condition keeps, in order, exactly the rows of store `v`; with no condition every row is kept |
| `Access.RepairScope` | src/modules/repair_history.js:86-88 | a super admin who picked a store sees exactly that store's tickets; with no pick or "All Stores" they see all |
| `Access.RequestScope` | src/modules/requests.js:95-97 | an actor with a store id sees exactly their store's requests; one without sees all |
| `Access.ProductAndRepairFiltersDiffer` | src/modules/stock.js:154-159 | for every super admin who also carries a store id and has picked a store, the products query is not narrowed, while the repairs query is narrowed to the pick |
| `Tables.FindByKey` | src/modules/stores.js:158 | a lookup by id finds a row exactly when one has that id, and the row it finds has it |
| `Tables.Table.Insert` | src/modules/stock.js:317 | `insert([row])` appends the row exactly when its id is free, and keeps ids unique |
| `Tables.Table.Update` | src/modules/stock.js:314 | `update(...).eq('id', id)` rewrites exactly the rows with that id, keeps ids unique |
| `Tables.Table.Commit` | src/modules/stock.js:312-319 | a form's write is an insert of the new row or an update by the form's id, with the results above |
| `Tables.Table.Delete` | src/modules/stock.js:346 | `delete().eq('id', id)` removes the row with that id and keeps the rest in order |
| `Stock.Resized` | src/modules/stock.js:237-247 | one entry per unit (none for a quantity ≤ 0); entry `i` is value `i`, or blank past the end of the values |
| `Stock.ValuesToUse` | src/modules/stock.js:235 | the passed serials are used when there are any, otherwise the current input values |
| `Stock.SerialString` | src/modules/stock.js:291 | the saved `serial_number` is `''` exactly when no input is filled |
| `Stock.StoredSerials` | src/modules/stock.js:267 | a null or empty column gives no serials; otherwise one piece more than it has commas, and the pieces join back to the column |
| `Stock.SerialLoop` | src/modules/stock.js:237-247 | the loop gives one entry per unit (none for a quantity ≤ 0): entry `i` is source value `i`, or blank past the source's end |
| `Stock.ResizeTwice` | src/modules/stock.js:250-254 | growing the inputs and cutting them back gives what cutting them directly gives |
| `Stock.ResizeKeepsWithinCount` | src/modules/stock.js:237-247 | when the quantity is at least the number of values, all of them are kept and blanks follow |
| `Stock.ShrinkThenGrowLosesEntries` | src/modules/stock.js:250-254 | lowering the quantity drops typed serials for good: raising it again gives blanks |
| `Stock.SerialRoundTrip` | src/modules/stock.js:291 | the saved text, split again on edit (src/modules/stock.js:267), gives exactly the non-blank entries in order when none holds a comma; all-blank entries give `''` and then no serials |
| `Stock.SerialsCanFallShortOfQuantity` | src/modules/stock.js:291 | blank inputs are dropped, so two units with one serial store one serial |
| `Stock.FilledThenBlanks` | src/modules/stock.js:291 | filled entries followed by blanks save as just the filled entries |
| `Stock.EditSaveKeepsSerialNumber` | src/modules/stock.js:267-268 | opening a product and saving its serials untouched writes the same `serial_number` back, when the serials are filled and fit the quantity |
| `Stock.EditReusesLeftoverSerials` | src/modules/stock.js:233-235 | for any quantity and any leftover inputs, a product without stored serials is edited with the leftover inputs, resized, because an empty list falls back to the current inputs |
| `Stock.ProductSave` | src/modules/stock.js:286-319 | a save writes nothing exactly when the name is empty; any write carries the typed name and the actor's store |
| `Stock.ProductSaveRules` | src/modules/stock.js:288-319 | an empty name writes nothing; otherwise the name, vendor, location and serial text are written as typed; a price, quantity or courier charge is written as read, or as 0 when it is not a number; the store is forced to the actor's; and the save is an update exactly when the hidden id is set |
| `Stock.NegativeQuantityIsSaved` | src/modules/stock.js:294 | a quantity of -3 is written as -3: there is no clamp |
| `Stock.Updated` | src/modules/stock.js:314 | an update keeps the product's id |
| `Stock.EditThenSaveKeepsProduct` | src/modules/stock.js:257-268 | opening a product of the actor's store and saving it untouched rewrites it unchanged (quantity read back by `parseInt`, serials as above) |
| `Stock.SearchByName` | src/modules/stock.js:217-221 | the shown list keeps the fetched order, and holds exactly the fetched products whose name matches |
| `Stock.SearchByNameSpec` | src/modules/stock.js:217-221 | the search keeps, in order, exactly the products whose lower-cased name contains the lower-cased term; an empty term keeps all |
| `Stock.SearchEmptyTerm` | src/modules/stock.js:217-221 | an empty search term shows the whole list |
| `Stock.RowView` | src/modules/stock.js:177-198 | a row shows the name, quantity and price; `-` for a missing category; the red badge exactly when quantity < 5; a store cell only for a super admin, `Unknown` when the store has no name; edit and delete buttons exactly for a store admin |
| `Stock.LowStockIffFewSerialSlots` | src/modules/stock.js:183 | the red badge (quantity < 5) marks exactly the products whose form offers fewer than five serial inputs |
| `Stock.ProductHeaderColumns` | src/modules/stock.js:356 | the header splits into the nine column names |
| `Stock.ProductRowFields` | src/modules/stock.js:358-365 | each line has the header's nine cells and reads back as the sanitised values, when id and date hold no comma; name, vendor, location and serial cells hold no comma |
| `Stock.ProductCsv` | src/modules/stock.js:353-366 | an empty list exports nothing; otherwise the text starts with the header line |
| `Stock.ProductCsvLines` | src/modules/stock.js:354-366 | an empty list exports nothing; when no cell holds a line break, the text splits into the header and one line per fetched product, in order |
| `Stock.ProductRows` | src/modules/stock.js:358-366 | one line per product, in list order |
| `Stock.StockPanel.constructor` | src/modules/stock.js:123-124 | the panel starts with no selection and no serial inputs, and fetches |
| `Stock.StockPanel.Fetch` | src/modules/stock.js:147-171 | the list becomes the table narrowed by the products filter of the actor and the selection |
| `Stock.StockPanel.ChangeStoreFilter` | src/modules/stock.js:140-143 | a super admin's selection is stored and the list refetched; for anyone else nothing changes |
| `Stock.StockPanel.RenderSerialInputs` | src/modules/stock.js:227-248 | the inputs become the passed serials, or the current values when none are passed, resized to the count; their reset values are the drawn values |
| `Stock.StockPanel.OnQuantityInput` | src/modules/stock.js:250-254 | a quantity change resizes the current inputs to `parseInt(text) \|\| 0` |
| `Stock.StockPanel.TypeSerial` | src/modules/stock.js:243 | typing into serial input `i` changes that input and nothing else; there is no input past the last one |
| `Stock.StockPanel.OpenAdd` | src/modules/stock.js:280-282 | a store admin gets the blank form and no serial inputs; nobody else gets a form |
| `Stock.StockPanel.OpenEdit` | src/modules/stock.js:331-341 | a store admin gets the form of the fetched product with that id and its serial inputs; otherwise nothing opens |
| `Stock.StockPanel.Close` | src/modules/stock.js:274-278 | `form.reset()` puts the serial inputs back to their drawn values |
| `Stock.StockPanel.Submit` | src/modules/stock.js:286-328 | the save writes what `ProductSave` decides; on success the list is refetched and the form closed; on failure nothing changes |
| `Stock.StockPanel.Export` | src/modules/stock.js:352-366 | the export is the CSV of the whole fetched list, and is absent exactly when the list is empty |
| `Stock.StockPanel.Delete` | src/modules/stock.js:331-349 | only a store admin who confirms deletes; then exactly that product is removed and the list refetched |
| `Repairs.StatusOptionsAreStatuses` | src/modules/repairs.js:138-145 | the form's status select offers exactly the six board statuses |
| `Repairs.IdChar` | src/modules/repairs.js:37 | whitespace, `(` and `)` become `-`; every other character is kept |
| `Repairs.KeyOf` | src/modules/repairs.js:37 | the id transform keeps the length and maps each character as above |
| `Repairs.KeysDistinct` | src/modules/repairs.js:37-39 | the six statuses give six different ids |
| `Repairs.ColumnIdsDistinct` | src/modules/repairs.js:226-227 | the six column ids are distinct, and so are the six count ids |
| `Repairs.Buckets` | src/modules/repairs.js:225-231 | one bucket per status, in board order, each holding the tickets with that status |
| `Repairs.Sizes` | src/modules/repairs.js:232 | a column's count is the length of its bucket |
| `Repairs.Board` | src/modules/repairs.js:225-232 | the loop draws, for each status in board order, exactly the tickets with that status and their count |
| `Repairs.BucketSpec` | src/modules/repairs.js:231 | a bucket holds, in fetched order, exactly the tickets with that status |
| `Repairs.AtMostOneColumn` | src/modules/repairs.js:225-232 | no ticket is drawn in two columns |
| `Repairs.InSomeColumnIff` | src/modules/repairs.js:225-232 | a ticket is drawn in some column exactly when its status is one of the six |
| `Repairs.SizesSum` | src/modules/repairs.js:231-232 | the counts of distinct statuses add up to the number of tickets with one of them |
| `Repairs.CountsAddUp` | src/modules/repairs.js:225-232 | the six counts add up to the tickets with a known status: never more than fetched, all of them exactly when every status is known |
| `Repairs.SelectStatus` | src/modules/repairs.js:275 | the select shows a status that is one of its options, and `""` for any other status |
| `Repairs.NewRepairForm` | src/modules/repairs.js:263-286 | "New Entry" opens with no id, blank customer and device, no cost, status Received and neither box ticked |
| `Repairs.EditRepairForm` | src/modules/repairs.js:263-286 | the edit form shows the ticket's id, customer, device, boxes and cost; a null contact or problem as blank; the status only when the select offers it, `""` otherwise |
| `Repairs.NewEntryDefaults` | src/modules/repairs.js:263-286 | saving a new entry as it opens inserts a Received ticket, neither box ticked, cost 0, in the actor's store |
| `Repairs.RepairSave` | src/modules/repairs.js:307-345 | nothing is written exactly when the actor has no store id; any write carries the actor's store |
| `Repairs.RepairSaveRules` | src/modules/repairs.js:307-345 | an actor without a store id writes nothing; otherwise customer, contact, device, model, serial, problem, technician, both boxes, part name and message are written as typed, the store forced to the actor's, an empty cost as 0, any status the select holds, and an update exactly when the hidden id is set |
| `Repairs.PartNameNotRequired` | src/modules/repairs.js:328-330 | a ticked part change with an empty part name is saved as it is |
| `Repairs.Updated` | src/modules/repairs.js:338 | an update keeps the ticket's id and creation time |
| `Repairs.AnyStatusAccepted` | src/modules/repairs.js:331 | any of the six statuses can be saved over any current status |
| `Repairs.EditThenSaveKeepsRepair` | src/modules/repairs.js:263-286 | opening a ticket of the actor's store and saving it untouched rewrites it unchanged, when its status is known and its optional columns are set |
| `Repairs.UnknownStatusClearedOnEdit` | src/modules/repairs.js:275 | a ticket whose status is not one of the six is saved with an empty status |
| `Repairs.RepairBoard.constructor` | src/modules/repairs.js:172-173 | the board starts with no selection and holds the first fetch |
| `Repairs.RepairBoard.Fetch` | src/modules/repairs.js:204-221 | the tickets become the table narrowed by the repairs filter for the current selection |
| `Repairs.RepairBoard.ChangeStoreFilter` | src/modules/repairs.js:189-192 | a super admin's selection is stored and the board refetched; for anyone else nothing changes |
| `Repairs.RepairBoard.Submit` | src/modules/repairs.js:307-347 | the save writes what `RepairSave` decides; on success the board is refetched |
| `History.StoreNameOf` | src/modules/repair_history.js:83 | the join attaches a store name exactly when the ticket's store exists, and it is that store's name |
| `History.Joined` | src/modules/repair_history.js:83 | every fetched ticket, in order, with its store's name |
| `History.HistoryMatches` | src/modules/repair_history.js:161-169 | an empty term matches every ticket |
| `History.MatchesIff` | src/modules/repair_history.js:163-169 | the search predicate holds exactly when one of the five fields mentions the term |
| `History.HistorySearchSpec` | src/modules/repair_history.js:161-171 | the search keeps, in order, exactly the tickets one of whose fields mentions the term (null serial or store never); an empty term keeps all |
| `History.HistoryHeaderColumns` | src/modules/repair_history.js:177-178 | the header has 11 columns, or 12 for a super admin with Store second and the other 11 unchanged |
| `History.HistoryRows` | src/modules/repair_history.js:182-195 | one line per ticket, in list order |
| `History.HistoryRowFields` | src/modules/repair_history.js:182-194 | a line has as many cells as the header and reads back as the sanitised values, when date, contact, model, status, technician and part hold no comma |
| `History.HistoryCsv` | src/modules/repair_history.js:174-195 | an empty list exports nothing; otherwise the text starts with the role's header line |
| `History.HistoryCsvLines` | src/modules/repair_history.js:175-195 | an empty list exports nothing; when no cell holds a line break, the text splits into the header and one line per fetched ticket, in fetch order |
| `History.ExportIgnoresSearch` | src/modules/repair_history.js:161-195 | a ticket the search hides from the table still has its line in the export, when no cell holds a line break |
| `History.DeleteAllowed` | src/modules/repair_history.js:145-151 | a delete goes ahead exactly when the prompt returned `admin123` and the confirmation was accepted; a cancelled prompt never deletes |
| `History.HistoryPanel.constructor` | src/modules/repair_history.js:60-61 | the panel starts with no selection, fetches and shows every row |
| `History.HistoryPanel.Fetch` | src/modules/repair_history.js:80-99 | the list becomes the narrowed table joined with store names, and all of it is shown |
| `History.HistoryPanel.ChangeStoreFilter` | src/modules/repair_history.js:74-77 | a super admin's selection is stored and the list refetched; for anyone else nothing changes |
| `History.HistoryPanel.Search` | src/modules/repair_history.js:161-171 | the table shows the filtered list and the list is kept |
| `History.HistoryPanel.Export` | src/modules/repair_history.js:174-195 | the export is computed from the whole fetched list, and is absent exactly when the list is empty |
| `History.HistoryPanel.Delete` | src/modules/repair_history.js:141-156 | any actor deletes exactly when the prompt returned `admin123` and the confirmation was accepted; then that ticket is removed and the list refetched |
| `Requests.Visible` | src/modules/requests.js:85-97 | the list holds table rows only, and never another store's row for an actor with a store id |
| `Requests.VisibleSpec` | src/modules/requests.js:95-97 | an actor with a store id sees exactly their store's requests, in order; one without sees all |
| `Requests.NewRequest` | src/modules/requests.js:162-176 | the inserted row carries the backend's id and time, and the product and customer fields as typed |
| `Requests.NewRequestRules` | src/modules/requests.js:162-176 | a new request is Pending, in the actor's store, with the typed product, customer name and phone; its quantity is what `parseInt` reads: a typed integer as itself, an empty field as null |
| `Requests.ShowsStatusControl` | src/modules/requests.js:132-134 | a row carries the status select only for a super admin, and never when it is Fulfilled |
| `Requests.OptionsAreTargets` | src/modules/requests.js:136-139 | besides the empty placeholder the select sends exactly Ordered, Fulfilled and Cancelled |
| `Requests.OnlyFulfilledLocks` | src/modules/requests.js:134 | for a super admin, Pending, Ordered and Cancelled rows carry the status select, and Fulfilled rows do not |
| `Requests.StatusUpdateIsLocal` | src/modules/requests.js:195-197 | a status update changes only the status of the request with that id and keeps ids unique |
| `Requests.CancelledIsNotFinal` | src/modules/requests.js:134-139 | a Cancelled request can still be moved to any of the three targets |
| `Requests.RequestsPanel.constructor` | src/modules/requests.js:205 | the panel draws the visible requests on start |
| `Requests.RequestsPanel.Fetch` | src/modules/requests.js:85-146 | the drawn rows become the visible requests |
| `Requests.RequestsPanel.Submit` | src/modules/requests.js:162-186 | the new request is inserted when its id is free, then the list is redrawn; otherwise nothing changes |
| `Requests.RequestsPanel.ChangeStatus` | src/modules/requests.js:188-203 | only a drawn row with a status select can be changed, the placeholder sends nothing, and the chosen status is written to exactly that request |
| `Stores.StoreSave` | src/modules/stores.js:127-141 | a save writes nothing exactly when the name is empty; any write carries the typed name and location |
| `Stores.StoreSaveRules` | src/modules/stores.js:127-141 | an empty name writes nothing; otherwise exactly `{name, location}` as typed, as an update exactly when the hidden id is set |
| `Stores.Updated` | src/modules/stores.js:137 | an update keeps the store's id and creation time |
| `Stores.EditThenSaveKeepsStore` | src/modules/stores.js:108-116 | opening a store with a location and saving it untouched rewrites it unchanged |
| `Stores.StoresPanel.constructor` | src/modules/stores.js:5-8 | anyone but a super admin gets no list at all |
| `Stores.StoresPanel.Fetch` | src/modules/stores.js:69-81 | the list becomes the table's rows |
| `Stores.StoresPanel.OpenEdit` | src/modules/stores.js:157-160 | the form of the listed store with that id, or nothing when there is none or the actor is not a super admin |
| `Stores.StoresPanel.Submit` | src/modules/stores.js:127-150 | a super admin's save writes what `StoreSave` decides, then refetches; anyone else's does nothing |
| `Stores.StoresPanel.Delete` | src/modules/stores.js:162-168 | only a super admin who confirms deletes; exactly that store row is removed, and no other table is touched |

## Left out

- `Repairs.RepairBoard`: the drawn columns and counts are not kept as fields. They live
  in the page, and `Repairs.Board` computes them from the fetched tickets.
- Markup, `innerHTML` rendering, modal show and hide, and icons are not modelled. The
  low-stock badge, the store column, the edit/delete buttons (`Stock.RowView`) and the
  drawn board are kept as values.
- Database queries are modelled as in-memory tables:
  - the backend's ordering (`order('name')`, `updated_at` and `created_at` descending)
    is not modelled; a table returns rows in the order they were added;
  - row-level security is not modelled;
  - the loading of store names into the store selectors is not modelled.
- Backend failures other than an insert whose id is taken are not modelled. This covers
  failed fetches, updates and deletes, and the error rows drawn when a fetch fails.
- Asynchronous behaviour is not modelled: a fetch that would land after a later one, and
  the gap between a write and its refetch.
- The browser's `required` and `min` attributes are not modelled, so the model lets
  through any form the JavaScript lets through.
- `parseFloat` prices and courier charges have no fractions. They arrive as integers, or
  as nothing where the field is not a number, and only the default-to-0 rule is modelled.
- The repair cost has no fractions either. The code sends the field's raw text, or 0 when
  it is empty (`src/modules/repairs.js:332`), and the backend reads it as a number. The
  model takes the cost as an integer or nothing, so a fractional cost is not modelled.
- `Text.ParseInt`: reads decimal digits only. It does not read `parseInt`'s hexadecimal
  `0x` prefix, which the numeric inputs these values come from cannot hold.
- `Text.Lower`: changes only the ASCII letters A–Z. It does not model full Unicode case
  mapping.
- Dates are formatted by a function parameter, standing in for `toLocaleDateString`.
- HTML escaping is not modelled. A serial typed with a `"` is assumed to survive being
  drawn back into an input's `value` attribute.
- Downloading the CSV (`encodeURI`, the link and its file name) is not modelled.
- Sign-in, the session and the user record (`src/modules/auth.js`), the layout
  (`src/modules/layout.js`) and routing (`src/main.js`) are not part of this model.
- After a store is deleted, whatever the backend does to that store's products, tickets
  and requests is not part of this model.
