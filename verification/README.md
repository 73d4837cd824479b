# Stock management of the restaurant dashboard, in Dafny

This project models the stock-management core of a React/TypeScript
restaurant dashboard:

- the two RTK-Query API slices: stock (`webhook/get-stock`, create,
  update, delete, add-quantity, refetch) and menu items (`webhook/get-menu`,
  create, update, delete). For each slice the model covers the response
  transform, the cache tags it provides and invalidates, the exact request
  every mutation sends, and the optimistic cache patches with their undo;
- the shared stock types and their field-name bridges
  (`mapApiToStock`, `mapStockToApi`);
- the stock page:
  - the mapping of loaded rows and the search filter;
  - the ten-per-page pagination and the Low/Medium/Good badge;
  - the summary figures;
  - the add, edit and replenish handlers;
  - the delete dialog with its page reset;
- the three dialogs:
  - the add and edit stock forms, with their shared validation rules and
    error messages, the request bodies built with `parseInt`/`parseFloat`,
    the edit prefill, the id guard, the merge of the server's answer and the
    error text;
  - the replenish dialog, with its pending list and its commit as one
    add-quantity request per entry;
- the low-stock widget of the business summary: status colour and icon,
  critical alert, restock suggestion and cost, and the progress bar with
  its colour.

JavaScript's own semantics are written out where the code depends on them:

- `Number`, `parseInt`, `parseFloat`, and `String(n)` and `toString` for
  integers below 10^21 and for decimals written positionally (module
  `JsNumber`);
- `trim`, `toLowerCase`, `includes` (module `JsText`);
- truthiness, `||` and object spread (module `Json`);
- `Array.prototype.slice` and `Math.ceil` (module `Inventory`).

Prices are exact decimals `Decimal(units, scale)`, worth
`units / 10^scale`. This gives `toString` and `parseFloat` a real round
trip. Quantities and thresholds are integers. `NaN` is `None`.

Side effects become explicit transitions:

- a request is a returned `Request` value;
- the server's verdict is an `Outcome` parameter;
- React's effects are functions that the handlers apply in the order React
  would run them;
- an optimistic patch is a new list, and its undo restores the snapshot
  (`Cache.Settle`).

Modules follow the source files: `StockApi` (crudStock.ts), `ItemApi`
(crudItem.ts), `StockTypes` (stock.ts), `Inventory` and `StockPage`
(StockManagement.tsx), `StockForm`, `AddModal` and `EditModal` (the add and
edit dialogs), `ReplenishModal` and `LowStock`. Supporting modules:
`Options`, `Lists`, `Json`, `Cache`, `JsText`, `JsNumber`.

## Model

| member | source | states |
|---|---|---|
| StockApi.TransformRow | src/app/services/crudStock.ts:51-60 | The id is `String(item.id)`; the name and unit fall back to "Unknown Item" and "unit" when missing or empty and are never empty; a non-number quantity becomes 0; a missing threshold becomes 0; the price is the shared price coercion |
| StockApi.TransformResponse | src/app/services/crudStock.ts:51-53 | One cached row per API row, same length and order |
| StockApi.ProvidesTags | src/app/services/crudStock.ts:61-75 | The LIST tag always comes last; a failed query provides LIST alone; otherwise the per-row tags come before it |
| StockApi.ItemTagsMembership | src/app/services/crudStock.ts:67-72 | A row tag is provided exactly when some cached row has that id and the id is non-empty (the `item.id` filter) |
| StockApi.ProvidedIds | src/app/services/crudStock.ts:61-75 | For any id other than "LIST", the id's tag is in the provided tags iff a cached row carries that non-empty id |
| StockApi.UpdateRequest | src/app/services/crudStock.ts:105-110 | PUT to webhook/update-stock; the body is `{...body, id}`, so it has the body's keys plus `id`, the argument id wins, and the other fields are kept |
| StockApi.AddQuantityRequest | src/app/services/crudStock.ts:153-158 | PUT to webhook/add-quantity; the body is `{id, ...body}`, so an `id` inside the body wins over the argument |
| StockApi.RoutesDistinct | src/app/services/crudStock.ts:46-158 | The list query (GET webhook/get-stock) and the create, update, delete and add-quantity mutations use five different method-and-path pairs; equal create requests carry equal bodies and equal delete requests equal ids |
| StockApi.SpreadOrderIrrelevantWithoutId | src/app/services/crudStock.ts:109 | When the body has no `id`, the update and add-quantity spread orders send the same object |
| StockApi.MutationsRefetchList | src/app/services/crudStock.ts:101 | Every mutation, refetch included (lines 111-114, 147-150, 159-162, 165-170), invalidates LIST, and every list query provides LIST; row mutations invalidate exactly {row tag, LIST} |
| StockApi.FirstWithId | src/app/services/crudStock.ts:134 | `findIndex`: -1 iff no cached row has the id; otherwise a row with the id, and none before it |
| StockApi.OptimisticDelete | src/app/services/crudStock.ts:128-146 | A rejected delete leaves the cache as it was; a fulfilled delete splices out the first row with the id (if any) and keeps everything else in order |
| StockApi.DeleteRemovesFirstOnly | src/app/services/crudStock.ts:134-137 | A fulfilled delete shortens the cache by one iff some row has the id, and leaves its length unchanged iff none has |
| ItemApi.TransformRow | src/app/services/crudItem.ts:49-57 | Row i gets `row_number` i+1 and `id` set to `item.id` when truthy, else `item._id`; every other field is kept |
| ItemApi.TransformResponse | src/app/services/crudItem.ts:49-57 | Every row is numbered by its position: same length, row i is the transform of input row i |
| ItemApi.RowNumbers | src/app/services/crudItem.ts:53 | The row numbers of a transformed list are 1..n in order, pairwise distinct |
| ItemApi.ProvidesTags | src/app/services/crudItem.ts:58-67 | One tag per menu item carrying its id (no filtering), then LIST; a failed query provides LIST alone |
| ItemApi.UpdateRequest | src/app/services/crudItem.ts:103-108 | PUT to webhook/update-item; the body is `{id, ...body}`, so the body's own `id` wins when present |
| ItemApi.RoutesDistinct | src/app/services/crudItem.ts:45-147 | The list query (GET webhook/get-menu) and the create, update and delete mutations use four different method-and-path pairs; equal create requests carry equal bodies and equal delete requests equal ids |
| ItemApi.MutationsRefetchList | src/app/services/crudItem.ts:135-138 | Create (line 92), update and delete (175-178) all invalidate LIST, which every list query provides; update and delete invalidate exactly {row tag, LIST} |
| ItemApi.FirstWithId | src/app/services/crudItem.ts:118-158 | `find` (line 118) and `findIndex` (line 158) both go to the first item with the id: the index is -1 iff no cached item has the id; otherwise that item has the id and none before it does |
| ItemApi.OptimisticUpdate | src/app/services/crudItem.ts:111-133 | Rejected gives the cache back and no match leaves it alone; otherwise only the first item with the id changes: its keys become its own plus the body's, the body's values win, and its other values stay |
| ItemApi.OptimisticDelete | src/app/services/crudItem.ts:151-173 | Rejected gives the cache back and no match leaves it alone; otherwise the cache loses exactly the first item with the id |
| ItemApi.DeleteShortensIffPresent | src/app/services/crudItem.ts:158-162 | A fulfilled delete shortens the cache by one iff some item has the id, and leaves it the same length iff none has |
| StockTypes.MapApiToStock | src/Types/stock.ts:69-76 | The id is kept; the name and unit fall back to "Unknown Item" and "unit" exactly when missing or empty; a non-number quantity becomes 0; a missing threshold becomes 0; a missing price is worth 0 |
| StockTypes.MapStockToApi | src/Types/stock.ts:79-85 | Every field except the id is copied under the request's names |
| StockTypes.ApiRoundTrip | src/Types/stock.ts:69-85 | An API record with every field present and non-empty reaches the create request unchanged |
| StockTypes.MapApiToStockInverts | src/Types/stock.ts:69-76 | Mapping the API spelling of a record (non-empty name and unit) gives the record back: the fallbacks only replace missing values |
| StockTypes.IdString | src/app/services/crudStock.ts:53 | `String(id)`: text stays itself, a missing id becomes "undefined", and a number's text parses back to the number |
| StockTypes.CoercePrice | src/app/services/crudStock.ts:57 | `parseFloat(price?.toString() \|\| "0") \|\| 0`: a number comes back as its own value in shortest form; text gives its leading decimal; a missing value, unparsable text or zero gives 0 |
| StockTypes.CoercedText | src/app/services/crudStock.ts:57 | The text `parseFloat` sees: a number's own spelling, a non-empty text itself, "0" for a missing value or empty text |
| Inventory.MapRow | src/Pages/StockManagement.tsx:60-69 | The page mapper field by field: the fallbacks for name and unit, 0 for a non-number quantity or a missing threshold, and the same price coercion as the slice |
| Inventory.MapApiResponse | src/Pages/StockManagement.tsx:60-62 | One record per row, same order |
| Inventory.RemapKeepsRow | src/Pages/StockManagement.tsx:60-69 | Mapping a row the slice has already transformed keeps every field; the price only loses trailing zeros and keeps its value |
| Inventory.RemapIdempotentOnNumbers | src/Pages/StockManagement.tsx:67 | For rows whose price was a number or missing, mapping twice equals mapping once |
| Inventory.SearchFilter | src/Pages/StockManagement.tsx:86-97 | An empty term keeps the inventory; any other term keeps, in order, exactly the records whose lower-cased name contains the lower-cased term |
| Inventory.Search | src/Pages/StockManagement.tsx:86-97 | The result is no longer than the inventory; an empty term keeps it whole; every record kept is from the inventory and matches a non-empty term |
| Inventory.SearchMembership | src/Pages/StockManagement.tsx:90-92 | A record is in the search result iff it is in the inventory and the term is empty or matches its name |
| Inventory.SearchIdempotent | src/Pages/StockManagement.tsx:86-97 | Searching the result again for the same term changes nothing |
| Inventory.SearchIgnoresCase | src/Pages/StockManagement.tsx:91 | A term and its lower-cased form select the same records |
| Inventory.CeilDiv | src/Pages/StockManagement.tsx:100 | `Math.ceil(n/d)` is the integer r with (r-1)·d < n ≤ r·d |
| Inventory.TotalPages | src/Pages/StockManagement.tsx:100 | The page count is the least r with n ≤ 10·r |
| Inventory.SliceBound | src/Pages/StockManagement.tsx:103 | A slice bound is clamped into the list, and a non-negative bound is kept when it lies inside |
| Inventory.PageItems | src/Pages/StockManagement.tsx:101-103 | Page p ≥ 1 shows positions (p-1)·10 up to p·10, cut at the end of the list, and never more than 10 records |
| Inventory.PagesCoverList | src/Pages/StockManagement.tsx:100-103 | Pages 1..totalPages laid end to end are exactly the filtered list; every page after the last is empty |
| Inventory.PagesFrom | src/Pages/StockManagement.tsx:100-103 | Pages p..totalPages laid end to end are the list from position (p-1)·10 on |
| Inventory.StatusOf | src/Pages/StockManagement.tsx:206-226 | Low iff quantity ≤ threshold; Medium iff above it and 2·quantity ≤ 3·threshold; Good otherwise |
| Inventory.CalculateStats | src/Pages/StockManagement.tsx:228-251 | The item count is the inventory length; the low count is the number of records with quantity ≤ threshold and never exceeds the total; the value is Σ quantity·price, which is non-negative when every quantity and price is |
| Inventory.ValueSumNonNegative | src/Pages/StockManagement.tsx:244-248 | The stock value of non-negative records is non-negative |
| Inventory.AddItem | src/Pages/StockManagement.tsx:110-120 | The list grows by one iff the record has a non-empty id, and then ends with it; otherwise it is unchanged; the old records stay in front |
| Inventory.EditItem | src/Pages/StockManagement.tsx:136-142 | Same length and ids; records with another id are unchanged |
| Inventory.EditSettles | src/Pages/StockManagement.tsx:136-142 | After an edit, every record with that id is the edited record; editing twice equals editing once; an unknown id changes nothing |
| Inventory.Replenish | src/Pages/StockManagement.tsx:122-134 | Same length; each record changes at most in its quantity |
| Inventory.ReplenishQuantities | src/Pages/StockManagement.tsx:123-130 | A record gains the quantity of the first entry with its id, and stays as it is when no entry has its id |
| StockPage.FilterEffect | src/Pages/StockManagement.tsx:86-97 | The view becomes the search of the inventory for the term and the page goes to 1; nothing else changes |
| StockPage.FilterEffectIdempotent | src/Pages/StockManagement.tsx:86-97 | Running the search effect twice is running it once |
| StockPage.DataLoaded | src/Pages/StockManagement.tsx:72-83 | No data leaves the page unchanged. Loaded data becomes the inventory row for row, each field through the page mapper (name and unit fallbacks, shortest price); the view is the search of that inventory for the current term, the page is 1, and the term and delete dialog stay |
| StockPage.DataLoadedFromSlice | src/Pages/StockManagement.tsx:60-83 | Rows delivered by the stock slice reach the page field for field; only the price spelling may shorten, its value stays (the slice transform at crudStock.ts:51-60 already applied the fallbacks) |
| StockPage.SetSearch | src/Pages/StockManagement.tsx:86-97 | Typing a term shows page 1, and the view is the search of the inventory for it: exactly the matching records, in inventory order with duplicates kept; the inventory and the delete dialog stay |
| StockPage.ChangePage | src/Pages/StockManagement.tsx:106-108 | The current page becomes the requested one; the inventory, view, term and delete dialog all stay |
| StockPage.CurrentItems | src/Pages/StockManagement.tsx:100-103 | The rows shown are at most ten, all from the filtered view; a page from 1 to the page count shows at least one row, and a page beyond it shows none |
| StockPage.SetInventory | src/Pages/StockManagement.tsx:86-97 | A new inventory is searched with the current term and shown from page 1; the term and the delete dialog stay |
| StockPage.AddItem | src/Pages/StockManagement.tsx:110-120 | A record without an id leaves the page untouched; otherwise it is appended, the view becomes the search of the new inventory for the current term and page 1 shows; the term and the delete dialog stay |
| StockPage.EditItem | src/Pages/StockManagement.tsx:136-142 | The inventory becomes the edited list, the view its search for the current term, and page 1 shows; the term and the delete dialog stay |
| StockPage.ReplenishItems | src/Pages/StockManagement.tsx:122-134 | The inventory becomes the replenished list, the view its search for the current term, and page 1 shows; the term and the delete dialog stay |
| StockPage.AskDelete | src/Pages/StockManagement.tsx:145-148 | The dialog opens on the record; the lists, page and search term stay |
| StockPage.CancelDelete | src/Pages/StockManagement.tsx:201-204 | The dialog closes with no record; the lists, page and search term stay |
| StockPage.PageAfterDelete | src/Pages/StockManagement.tsx:169-172 | The page is kept or set to 1; it is 1 iff it already was, or it lies beyond `ceil((n-1)/10)` and that count is positive |
| StockPage.ConfirmDelete | src/Pages/StockManagement.tsx:151-198 | No record: nothing happens. Otherwise one delete request for the id is sent; whatever the outcome, the inventory becomes the filter of the old one by "another id" (same order, duplicates kept), the view and term stay and the dialog closes; only success can reset the page, to `PageAfterDelete` |
| StockPage.DeleteThenEffect | src/Pages/StockManagement.tsx:86-97 | Once the search effect has run on the new inventory, success and failure give the same page: page 1, dialog closed, the deleted id gone from the view |
| StockForm.WithValue | src/Components/AddStockModal.tsx:23-25 | Setting a field changes that field and no other |
| StockForm.Validate | src/Components/AddStockModal.tsx:31-44 | A field has an error iff its rule fails, with that rule's message; no errors iff the form is valid |
| StockForm.CollectFields | src/Components/AddStockModal.tsx:32-40 | The rule checks add exactly the failing fields, each with its own message |
| StockForm.ValidIffFive | src/Components/EditStockModal.tsx:79-100 | Valid iff name and unit are not blank, quantity and price pass the "> 0" rule, and the threshold passes the "≥ 0" rule |
| StockForm.ValidOnNumbers | src/Components/EditStockModal.tsx:79-100 | For numbers spelled out, valid iff name and unit are not blank, quantity > 0, price > 0 and threshold ≥ 0 |
| StockForm.QuantityRuleOnNumber | src/Components/AddStockModal.tsx:34-35 | The quantity rule fails on a spelled-out integer iff it is ≤ 0 |
| StockForm.PriceRuleOnNumber | src/Components/AddStockModal.tsx:36-37 | The price rule fails on a spelled-out decimal iff it is ≤ 0 |
| StockForm.MinTRuleOnNumber | src/Components/AddStockModal.tsx:39-40 | The threshold rule fails on a spelled-out integer iff it is < 0 |
| StockForm.RulesOnWholeNumbers | src/Components/AddStockModal.tsx:34-40 | `Number(String(n)) <= 0` iff n ≤ 0, and `< 0` iff n < 0 |
| StockForm.RulesOnDecimals | src/Components/AddStockModal.tsx:36-37 | `Number(price.toString()) <= 0` iff the price is ≤ 0 |
| StockForm.QuantityBoundary | src/Components/AddStockModal.tsx:34-35 | "0" fails the quantity rule; "0.5" passes it, yet `parseInt` sends 0 (line 56) |
| StockForm.PriceBoundary | src/Components/AddStockModal.tsx:36-37 | "0" fails the price rule |
| StockForm.MinTBoundary | src/Components/AddStockModal.tsx:39-40 | "0" and a lone blank pass the threshold rule (`Number(" ")` is 0); only the empty text fails on emptiness |
| StockForm.NameBoundary | src/Components/AddStockModal.tsx:33 | A name of blanks fails |
| StockForm.InputChange | src/Components/AddStockModal.tsx:23-29 | The field takes the text and the other fields stay; a pending error on that field becomes ""; the other errors and the set of error keys stay |
| StockForm.InputChangeTwice | src/Components/EditStockModal.tsx:71-77 | Typing into a field twice is typing the second text once |
| StockForm.Close | src/Components/AddStockModal.tsx:81-85 | Closing empties every field and clears every error |
| StockForm.Body | src/Components/AddStockModal.tsx:53-61 | The body has exactly the keys itemName, quantity, price, unit and MinT; texts go as typed, quantity and MinT through `parseInt`, the price through `parseFloat`; NaN is sent as null |
| AddModal.Submit | src/Components/AddStockModal.tsx:46-79 | Invalid: no request and the errors shown. Valid: one create request with the form's body; success empties the form and closes, failure keeps the form with no errors |
| AddModal.SendsIffValid | src/Components/AddStockModal.tsx:48 | A request is sent iff every rule passes, whatever the outcome |
| AddModal.SuccessIsClose | src/Components/AddStockModal.tsx:67-75 | A successful submit leaves the same form state as closing |
| AddModal.WholeNumbersSent | src/Components/AddStockModal.tsx:53-61 | For spelled-out integers the request carries those integers, and validity forces quantity > 0 and threshold ≥ 0 |
| EditModal.Prefill | src/Components/EditStockModal.tsx:56-69 | Name and unit are copied; quantity, price and threshold are spelled so that `parseInt`, `parseFloat` and `Number` read back the record's own values |
| EditModal.PrefillTexts | src/Components/EditStockModal.tsx:62-66 | The `\|\| "0"` fallbacks never fire: the texts are the numbers' own spellings |
| EditModal.PrefillValid | src/Components/EditStockModal.tsx:56-100 | A record that meets the rules gives a prefilled form that passes validation |
| EditModal.FromForm | src/Components/EditStockModal.tsx:136-143 | The record built from the form has the dialog's id, the texts as typed, and the parsed numbers whenever they parse |
| EditModal.TextFrom | src/Components/EditStockModal.tsx:151-154 | `v \|\| fallback` on text: a non-empty string wins, anything else gives the fallback |
| EditModal.WholeFrom | src/Components/EditStockModal.tsx:152-155 | `v \|\| fallback` on a count: a non-zero whole number wins, anything else gives the fallback |
| EditModal.DecimalFrom | src/Components/EditStockModal.tsx:153 | `v \|\| fallback` on the price: a non-zero number wins |
| EditModal.Merge | src/Components/EditStockModal.tsx:146-157 | Each field comes from the answer under its names, in the source's order (itemName then Item, MinT then MinThreshold), and otherwise from the record built from the form |
| EditModal.MergeOfEmptyAnswer | src/Components/EditStockModal.tsx:146-157 | An answer with only falsy fields gives the record built from the form |
| EditModal.MergePrefersAnswer | src/Components/EditStockModal.tsx:146-157 | A full answer wins field by field (an empty id falls back to the dialog's) |
| EditModal.ErrorMessage | src/Components/EditStockModal.tsx:167-175 | The alert is `error.data.message`, else `error.message`, else the fixed text |
| EditModal.ErrorMessageNonEmpty | src/Components/EditStockModal.tsx:167-175 | The alert text is never empty |
| EditModal.MissingId | src/Components/EditStockModal.tsx:111 | The guard catches the id of a row that came without one ("undefined"), and never the text of a numeric id |
| EditModal.Submit | src/Components/EditStockModal.tsx:102-177 | Errors always reflect validation; a request is sent iff the form is valid, a record is open and its id is neither empty nor "undefined" (otherwise an alert, lines 111-115); an answer hands the merged or form-built record to the page and closes; an exception alerts its message |
| EditModal.UnchangedEditRoundTrip | src/Components/EditStockModal.tsx:56-165 | Submitting the prefilled form unchanged with no data back hands the page the record it started from, and the request carries its numbers and id |
| ReplenishModal.Select | src/Components/ReplenishStockModal.tsx:25-29 | Choosing a record selects it, clears the amount and closes the dropdown; the pending list stays |
| ReplenishModal.SetAmount | src/Components/ReplenishStockModal.tsx:171 | Typing sets the amount text and keeps the selection, the pending list and the dropdown |
| ReplenishModal.WholeAmount | src/Components/ReplenishStockModal.tsx:32 | A whole amount is the value `Number` reads from the text |
| ReplenishModal.AddToList | src/Components/ReplenishStockModal.tsx:31-51 | The guard refuses a missing selection, empty text or a number ≤ 0. An accepted amount overwrites the first entry with the record's id, or else is appended; selection and text are then cleared |
| ReplenishModal.AddTwiceKeepsLast | src/Components/ReplenishStockModal.tsx:34-47 | Adding the same record twice leaves one entry carrying the second amount: amounts are replaced, not summed |
| ReplenishModal.RemoveFromList | src/Components/ReplenishStockModal.tsx:53-57 | Exactly the entries with another id remain, in order; the selection, the amount text and the dropdown stay |
| ReplenishModal.QuantityRequest | src/Components/ReplenishStockModal.tsx:63-68 | Each request goes to webhook/add-quantity with the id and the chosen record's quantity plus the pending amount |
| ReplenishModal.CommitList | src/Components/ReplenishStockModal.tsx:59-79 | An empty list does nothing. Otherwise request i is the add-quantity request of entry i: PUT to webhook/add-quantity with body exactly `{id, quantity}`, the id of the entry's record and its quantity plus the pending amount; the list goes to the page and the dialog is cleared and closed |
| ReplenishModal.RequestMatchesPage | src/Components/ReplenishStockModal.tsx:64 | With one entry per id and the record unchanged on the page, the quantity each request sends equals the quantity the page then shows (StockManagement.tsx:122-134) |
| ReplenishModal.Close | src/Components/ReplenishStockModal.tsx:81-87 | Closing clears the list, the selection, the amount and the dropdown |
| ReplenishModal.Step | src/Components/ReplenishStockModal.tsx:25-171 | Toggling the dropdown (line 123), choosing a record and typing leave the list alone; toggling flips the dropdown and keeps the selection; closing gives the initial state |
| ReplenishModal.Run | src/Components/ReplenishStockModal.tsx:25-171 | A run of actions that ends with a close leaves the dialog as it first opened; a run without an add leaves an empty list empty |
| ReplenishModal.RunKeepsWellFormed | src/Components/ReplenishStockModal.tsx:25-87 | Whatever the user does, the pending list never holds two entries for one id or a non-positive amount |
| ReplenishModal.StepKeepsWellFormed | src/Components/ReplenishStockModal.tsx:25-87 | Each dialog action keeps the list free of duplicate ids and non-positive amounts |
| ReplenishModal.AddKeepsWellFormed | src/Components/ReplenishStockModal.tsx:31-51 | Adding keeps the list free of duplicate ids and non-positive amounts |
| LowStock.StatusColor | src/Components/BusinessSummary/LowStockManagement.tsx:42-53 | Red, orange or green iff the lower-cased status is "low", "medium" or "high"; grey otherwise |
| LowStock.StatusIcon | src/Components/BusinessSummary/LowStockManagement.tsx:55-66 | The triangle, package or check icon iff the lower-cased status is "low", "medium" or "high" |
| LowStock.BadgeAgrees | src/Components/BusinessSummary/LowStockManagement.tsx:42-66 | Colour and icon always match, and neither depends on letter case |
| LowStock.Alert | src/Components/BusinessSummary/LowStockManagement.tsx:284 | The alert shows iff the suggested order exceeds the threshold; for non-negative stock it shows only while the bar is less than half full |
| LowStock.SuggestedOrder | src/Components/BusinessSummary/LowStockManagement.tsx:305 | The suggestion brings the stock to twice the threshold |
| LowStock.EstimatedCost | src/Components/BusinessSummary/LowStockManagement.tsx:310-313 | The cost is the suggestion times the unit price |
| LowStock.TotalValue | src/Components/BusinessSummary/LowStockManagement.tsx:225 | The stock worth is zero iff there is no stock or the price is zero, and it is non-negative for non-negative stock and price |
| LowStock.SuggestionWhenAlerted | src/Components/BusinessSummary/LowStockManagement.tsx:284-313 | While the alert shows for non-negative stock, the suggestion exceeds the threshold, its cost is non-negative for a non-negative price, and cost plus worth (line 225) is the worth of twice the threshold |
| LowStock.Progress | src/Components/BusinessSummary/LowStockManagement.tsx:253-265 | The width never exceeds 100; for a positive threshold it is `quantity/(2·threshold)·100`, capped at 100 from twice the threshold on; a zero threshold gives 100 (positive stock), `-Infinity` or `NaN` |
| LowStock.ShareOf | src/Components/BusinessSummary/LowStockManagement.tsx:254 | `x/d·100` is below 100 iff x < d, non-negative for non-negative x, and equals x·100 once multiplied back by d |
| LowStock.BarColor | src/Components/BusinessSummary/LowStockManagement.tsx:245-251 | Red iff below the threshold; orange iff from the threshold up to (not including) 1.5 times it; green otherwise |
| LowStock.SuggestionFillsBar | src/Components/BusinessSummary/LowStockManagement.tsx:253-305 | Ordering the suggestion fills the bar to 100 and turns it green |
| LowStock.AlertStricterThanPage | src/Components/BusinessSummary/LowStockManagement.tsx:284 | Every alerted record is "Low Stock" on the page (StockManagement.tsx:207), but a record exactly at its threshold is Low there with no alert here |
| LowStock.BarAndPageSplitAtOneAndAHalf | src/Components/BusinessSummary/LowStockManagement.tsx:248 | At exactly 1.5 times the threshold the page says Medium (StockManagement.tsx:213) while the bar is green; elsewhere above the threshold Medium and orange coincide |
| JsNumber.ToNumber | src/Components/AddStockModal.tsx:34-40 | `Number(text)` of blank text is 0; `ToNumberIgnoresSpace` and `ToNumberWhole` state the rest |
| JsNumber.ParseInt | src/Components/AddStockModal.tsx:56 | `parseInt` is NaN exactly when no digit follows the leading blanks and the optional sign |
| JsNumber.ParseFloat | src/Components/AddStockModal.tsx:57 | `parseFloat` is NaN exactly when the scan after the leading blanks finds no digit |
| JsNumber.ToNumberIgnoresSpace | src/Components/AddStockModal.tsx:34-40 | Surrounding blanks do not change what `Number` reads |
| JsNumber.ToNumberWhole | src/Components/AddStockModal.tsx:34-40 | When `Number` reads a text that is not blank, the trimmed text is one whole numeral, and `parseFloat` reads the same number |
| JsNumber.ParseIntIgnoresLeadingSpace | src/Components/AddStockModal.tsx:56 | Leading blanks do not change what `parseInt` reads |
| JsNumber.ParseFloatIgnoresLeadingSpace | src/Components/AddStockModal.tsx:57 | Leading blanks do not change what `parseFloat` reads |
| JsNumber.ParseIntPrefix | src/Components/AddStockModal.tsx:56 | `parseInt` reads an integer's spelling back as the integer whatever non-digit text follows it |
| JsNumber.ParseFloatPrefix | src/Components/AddStockModal.tsx:57 | `parseFloat` reads a number's spelling back in shortest form whatever follows it, unless a digit or a point |
| JsNumber.ParseIntOfIntToString | src/Components/EditStockModal.tsx:63-66 | `parseInt(String(n))` is n, for the positional spelling JavaScript uses below 10^21 |
| JsNumber.ToNumberOfIntToString | src/Components/EditStockModal.tsx:63-66 | `Number(String(n))` is n, for the positional spelling JavaScript uses below 10^21 |
| JsNumber.ParseFloatOfShow | src/Components/EditStockModal.tsx:64 | `parseFloat(d.toString())` and `Number(d.toString())` give d back in its shortest form |
| JsNumber.Normalize | src/Pages/StockManagement.tsx:67 | Dropping trailing zeros keeps the value and gives the shortest form |
| JsNumber.NormalizeIdempotent | src/Pages/StockManagement.tsx:67 | The shortest form is its own shortest form |
| JsText.BlankIffAllSpace | src/Components/AddStockModal.tsx:33 | `!text.trim()` iff the text is all blanks |
| JsText.ToLowerIdempotent | src/Pages/StockManagement.tsx:91 | Lower-casing twice is lower-casing once |
| JsText.IncludesIffOccurs | src/Pages/StockManagement.tsx:91 | `includes` holds iff the term occurs at some position |
| Lists.FilterMembership | src/Pages/StockManagement.tsx:90-92 | An element is in a filtered list iff it is in the list and passes the test |
| Lists.FilterIdempotent | src/Pages/StockManagement.tsx:90-92 | Filtering twice with the same test is filtering once |
| Lists.FilterDistinct | src/Components/ReplenishStockModal.tsx:53-57 | Filtering keeps keys distinct |

## Left out

- Network I/O, RTK Query's cache machinery and refetching, React rendering, JSX and styling are not modelled. Requests are returned values, the server's verdict is a parameter, and the tags a mutation invalidates are stated rather than acted on.
- The low-stock widget's data fetching (`fetchLowStockData`, `useQuery` with its retry and stale times) is left out: it is pure I/O. The widget's logic takes one `LowStockItem` as input.
- `console` logging, `alert` pop-ups and the `setTimeout` after a failed delete are left out: they have no effect on state. Alert texts are returned as values where the user would see them.
- `toFixed(1)` and `toLocaleString` display formatting is left out: it is presentation only.
- The delete confirmation dialog, the menu-item edit dialog, the admin panel and the other business-summary widgets are outside this model's core.
- JsNumber.ToNumber: accepts only an optional sign, digits with an optional fraction, and surrounding blanks. Exponents, hexadecimal and `Infinity` read as NaN here, although JavaScript reads them as numbers.
- JsNumber.ParseFloat: likewise reads no exponent or `Infinity`.
- JsNumber.IntToString / JsNumber.ShowDecimal: always write plain positional digits. JavaScript switches to exponent form for magnitudes of 10^21 and above (`String(1e21)` is `"1e+21"`) and for very small decimals (`(5e-7).toString()` is `"5e-7"`), and `parseInt("1e+21")` is 1, so `JsNumber.ParseIntOfIntToString` and the number read-back of `EditModal.Prefill` hold in JavaScript only below 10^21. Integers are unbounded here, whereas JavaScript numbers are exact only up to 2^53; quantities beyond that are rounded there and not here.
- JsNumber.ParseInt: reads no `0x` prefix. `parseInt("0x10")` is 16 in JavaScript; here it reads 0. No text in the stock forms is written in hexadecimal.
- JsText.ToLower: covers ASCII letters only.
- JsText.IsSpace: covers ASCII and Latin-1 blanks, not every Unicode space.
- Floating point: prices are exact decimals and sums are exact reals. Rounding, and NaN or Infinity produced by arithmetic, are not modelled except in the progress bar (`LowStock.Progress`).
- Quantities and thresholds are integers. A fractional count can never be stored, which is why the two deviations below exist.
- ReplenishModal.AddToList: an amount that is not a whole number, and text that is not a number at all (which the guard lets through because `NaN <= 0` is false), leaves the dialog unchanged. The source would store the fraction or `NaN` as the entry's quantity.
- EditModal.FromForm: a quantity, threshold or price that parses to `NaN` is stored as 0. The source stores `NaN`. Validation lets this through only where `Number` and `parseInt` disagree, as for a quantity of ".5" or a threshold of blanks.
- EditModal.Merge: an answer value of the wrong type counts as absent (a truthy non-string for a text field; a non-whole number, or a string, for a count or price). The source would copy it into the record.
- EditModal.Submit: `Threw` stands for an exception raised inside the `try`. Because the update is awaited without `unwrap`, a server error resolves with no `data`, and the record built from the form is still applied (`Answer(JUndef)`).
- AddModal.Submit: the add dialog never calls its `onSubmit` prop, so the page's `handleAddItem` is not reached from it. Both are modelled separately (`AddModal.Submit`, `StockPage.AddItem`).
- The page's filter effect depends on the inventory array as well as the term, so every inventory change shows page 1 again. `confirmDelete`'s own page reset is therefore overridden once the effect runs (`StockPage.DeleteThenEffect`).
- The `validItems` filter of `calculateStats` is not modelled: on typed records it keeps everything.
- The `typeof price === "number"` fallback of `calculateStats` is not modelled, for the same reason.
- `mapApiResponseToStock` receives rows the slice has already transformed (`Inventory.RemapKeepsRow`); the page's `try/catch` around it guards a mapping that cannot throw on such rows.
- The stock and menu base URLs are recorded as constants; `prepareHeaders` is left out.
