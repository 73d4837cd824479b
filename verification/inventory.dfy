/** The list logic of the stock page: mapping the slice's rows to stock
    records, the search filter, the fixed-size pagination, the three-way
    status, the summary figures, and the pure list updates that follow an
    add, an edit or a replenish. */
module Inventory {
  import opened Options
  import opened JsNumber
  import opened JsText
  import opened StockTypes
  import StockApi
  import Lists

  // ------------------------------------------------------------- mapping

  /** `mapApiResponseToStock` for one row. */
  function MapRow(row: ApiRow): (s: Stock)
    ensures s.id == IdString(row.id)
    ensures row.item.Some? && row.item.value != "" ==> s.itemName == row.item.value
    ensures row.item.None? || row.item.value == "" ==> s.itemName == "Unknown Item"
    ensures s.quantity == if row.quantity.Some? then row.quantity.value else 0
    ensures row.unit.Some? && row.unit.value != "" ==> s.unit == row.unit.value
    ensures row.unit.None? || row.unit.value == "" ==> s.unit == "unit"
    ensures s.minT == if row.minThreshold.Some? then row.minThreshold.value else 0
    ensures s.price == CoercePrice(row.price)
  {
    Stock(IdString(row.id), TextOr(row.item, "Unknown Item"), row.quantity.GetOr(0),
          TextOr(row.unit, "unit"), IntOrZero(row.minThreshold), CoercePrice(row.price))
  }

  /** `mapApiResponseToStock`: one record per row, in the same order. */
  function MapApiResponse(rows: seq<ApiRow>): (r: seq<Stock>)
    ensures |r| == |rows|
    ensures forall i :: 0 <= i < |rows| ==> r[i] == MapRow(rows[i])
  {
    seq(|rows|, i requires 0 <= i < |rows| => MapRow(rows[i]))
  }

  /** A cached row of the stock slice, as the page reads it back. */
  function RowOf(c: StockApi.CachedStock): ApiRow {
    ApiRow(IdText(c.id), Some(c.item), Some(c.quantity), Some(c.unit), PriceNumber(c.price), Some(c.minThreshold))
  }

  /** The page maps rows the slice has already normalised; the second
      mapping keeps every field, and the price only changes spelling (its
      trailing zeros go), never value. */
  lemma RemapKeepsRow(row: ApiRow)
    ensures var c := StockApi.TransformRow(row);
      MapRow(RowOf(c)) == Stock(c.id, c.item, c.quantity, c.unit, c.minThreshold, Normalize(c.price))
    ensures var c := StockApi.TransformRow(row);
      MapRow(RowOf(c)).price.Value() == c.price.Value()
  {
  }

  /** A price the slice took from a number keeps its spelling too, so for such
      rows mapping twice is mapping once. */
  lemma RemapIdempotentOnNumbers(row: ApiRow)
    requires !row.price.PriceText?
    ensures var c := StockApi.TransformRow(row);
      MapRow(RowOf(c)) == Stock(c.id, c.item, c.quantity, c.unit, c.minThreshold, c.price)
  {
    var c := StockApi.TransformRow(row);
    if row.price.PriceNumber? {
      NormalizeIdempotent(Normalize(row.price.d));
    }
  }

  // -------------------------------------------------------------- search

  /** The search test: the lower-cased name contains the lower-cased term. */
  predicate Matches(term: string, s: Stock) {
    Includes(ToLower(s.itemName), ToLower(term))
  }

  function Matcher(term: string): Stock -> bool {
    s => Matches(term, s)
  }

  /** The filter effect: an empty term shows the whole inventory; any other
      term keeps the records whose name contains it, ignoring case. */
  method SearchFilter(inventory: seq<Stock>, term: string) returns (r: seq<Stock>)
    ensures term == "" ==> r == inventory
    ensures term != "" ==> r == Lists.Filter(inventory, Matcher(term))
    ensures forall s :: s in r <==> s in inventory && (term == "" || Matches(term, s))
  {
    if term == "" {
      return inventory;
    }
    var p := Matcher(term);
    r := [];
    var i := 0;
    while i < |inventory|
      invariant 0 <= i <= |inventory|
      invariant r == Lists.Filter(inventory[..i], p)
    {
      FilterStep(inventory, i, p);
      if p(inventory[i]) {
        r := r + [inventory[i]];
      }
      i := i + 1;
    }
    assert inventory[..i] == inventory;
    forall s ensures s in r <==> s in inventory && Matches(term, s) {
      Lists.FilterMembership(inventory, p, s);
    }
  }

  /** Filtering one more element of a prefix. */
  lemma FilterStep<T>(xs: seq<T>, i: int, p: T -> bool)
    requires 0 <= i < |xs|
    ensures Lists.Filter(xs[..i + 1], p) == Lists.Filter(xs[..i], p) + (if p(xs[i]) then [xs[i]] else [])
  {
    Lists.FilterConcat(xs[..i], [xs[i]], p);
    assert xs[..i + 1] == xs[..i] + [xs[i]];
  }

  /** The same filter as a function of the term: every record it keeps
      comes from the inventory and matches, and an empty term keeps them
      all. */
  function Search(inventory: seq<Stock>, term: string): (r: seq<Stock>)
    ensures |r| <= |inventory|
    ensures term == "" ==> r == inventory
    ensures forall s :: s in r ==> s in inventory && (term == "" || Matches(term, s))
  {
    if term == "" then inventory else Lists.Filter(inventory, Matcher(term))
  }

  /** Which records the search keeps. */
  lemma SearchMembership(inventory: seq<Stock>, term: string, s: Stock)
    ensures s in Search(inventory, term) <==> s in inventory && (term == "" || Matches(term, s))
  {
    if term != "" {
      Lists.FilterMembership(inventory, Matcher(term), s);
    }
  }

  /** Searching the search result for the same term changes nothing. */
  lemma SearchIdempotent(inventory: seq<Stock>, term: string)
    ensures Search(Search(inventory, term), term) == Search(inventory, term)
  {
    if term != "" {
      Lists.FilterIdempotent(inventory, Matcher(term));
    }
  }

  /** Case does not matter: a term and its lower-cased form select the same
      records. */
  lemma SearchIgnoresCase(inventory: seq<Stock>, term: string)
    ensures Search(inventory, ToLower(term)) == Search(inventory, term)
  {
    ToLowerIdempotent(term);
    if term != "" {
      Lists.FilterSame(inventory, Matcher(ToLower(term)), Matcher(term));
    }
  }

  // ---------------------------------------------------------- pagination

  const PageSize := 10

  /** `Math.ceil(n / d)` for a positive divisor. */
  function CeilDiv(n: int, d: int): (r: int)
    requires d > 0
    ensures (r - 1) * d < n <= r * d
  {
    -((-n) / d)
  }

  /** `Math.ceil(filteredData.length / itemsPerPage)` */
  function TotalPages(n: nat): (r: nat)
    ensures (r - 1) * PageSize < n <= r * PageSize
  {
    CeilDiv(n, PageSize)
  }

  /** Where `Array.prototype.slice` puts a bound: from the end when
      negative, and clamped to the list. */
  function SliceBound(k: int, n: nat): (b: nat)
    ensures b <= n
    ensures 0 <= k ==> b == if k < n then k else n
  {
    if k < 0 then (if n + k < 0 then 0 else n + k) else if k < n then k else n
  }

  /** `xs.slice(start, end)` */
  function Slice<T>(xs: seq<T>, start: int, end: int): (r: seq<T>)
    ensures |r| <= |xs|
  {
    var a := SliceBound(start, |xs|);
    var b := SliceBound(end, |xs|);
    if b <= a then [] else xs[a..b]
  }

  function Min(a: int, b: int): int {
    if a <= b then a else b
  }

  /** `currentStockItems` on page `page`: positions `(page-1)*10` up to
      `page*10`, cut at the end of the list. */
  function PageItems<T>(xs: seq<T>, page: int): (r: seq<T>)
    ensures |r| <= PageSize
    ensures page >= 1 ==> r == xs[Min((page - 1) * PageSize, |xs|)..Min(page * PageSize, |xs|)]
  {
    var start := (page - 1) * PageSize;
    Slice(xs, start, start + PageSize)
  }

  /** Pages `page`, `page + 1`, …, `last`, one after the other. */
  function Pages<T>(xs: seq<T>, page: nat, last: nat): seq<T>
    decreases last + 1 - page
  {
    if page > last then [] else PageItems(xs, page) + Pages(xs, page + 1, last)
  }

  lemma {:induction false} PagesFrom<T>(xs: seq<T>, page: nat)
    requires page >= 1
    ensures Pages(xs, page, TotalPages(|xs|)) == xs[Min((page - 1) * PageSize, |xs|)..]
    decreases TotalPages(|xs|) + 1 - page
  {
    var n := |xs|;
    if page > TotalPages(n) {
      assert (page - 1) * PageSize >= n;
    } else {
      PagesFrom(xs, page + 1);
      assert (page - 1) * PageSize < n;
      var a := (page - 1) * PageSize;
      var b := Min(page * PageSize, n);
      assert xs[a..b] + xs[b..] == xs[a..];
    }
  }

  /** Pages 1 to `totalPages` hold the whole list, each record once and in
      order, and every page after the last is empty. */
  lemma PagesCoverList<T>(xs: seq<T>)
    ensures Pages(xs, 1, TotalPages(|xs|)) == xs
    ensures forall p :: p > TotalPages(|xs|) ==> PageItems(xs, p) == []
  {
    PagesFrom(xs, 1);
  }

  // -------------------------------------------------------------- status

  datatype Status = Low | Medium | Good

  /** `getStatusBadge`, the `1.5 *` comparison taken over the reals. */
  function StatusOf(quantity: int, minThreshold: int): (s: Status)
    ensures s == Low <==> quantity <= minThreshold
    ensures s == Medium <==> minThreshold < quantity && 2 * quantity <= 3 * minThreshold
    ensures s == Good <==> minThreshold < quantity && 2 * quantity > 3 * minThreshold
  {
    if quantity <= minThreshold then Low
    else if quantity as real <= minThreshold as real * 1.5 then Medium
    else Good
  }

  /** A record shows "Low Stock" on the page. */
  predicate IsLow(s: Stock) {
    s.quantity <= s.minT
  }

  // --------------------------------------------------------------- stats

  datatype Stats = Stats(totalItems: nat, lowStockItems: nat, totalValue: real)

  /** Σ quantity × price, added up from the front as `reduce` does. */
  function ValueSum(xs: seq<Stock>): real {
    if xs == [] then 0.0
    else ValueSum(xs[..|xs| - 1]) + xs[|xs| - 1].quantity as real * xs[|xs| - 1].price.Value()
  }

  predicate NonNegative(s: Stock) {
    s.quantity >= 0 && s.price.units >= 0
  }

  lemma {:induction false} ValueSumNonNegative(xs: seq<Stock>)
    requires forall i :: 0 <= i < |xs| ==> NonNegative(xs[i])
    ensures ValueSum(xs) >= 0.0
  {
    if xs != [] {
      var last := xs[|xs| - 1];
      ValueSumNonNegative(xs[..|xs| - 1]);
      SignOfValue(last.price);
      assert last.quantity as real * last.price.Value() >= 0.0;
    }
  }

  /** One more record of a prefix, as the loop of `calculateStats` takes it. */
  lemma StatsStep(xs: seq<Stock>, i: int)
    requires 0 <= i < |xs|
    ensures ValueSum(xs[..i + 1]) == ValueSum(xs[..i]) + xs[i].quantity as real * xs[i].price.Value()
    ensures Lists.Filter(xs[..i + 1], IsLow) == Lists.Filter(xs[..i], IsLow) + (if IsLow(xs[i]) then [xs[i]] else [])
  {
    FilterStep(xs, i, IsLow);
    assert xs[..i + 1][..i] == xs[..i];
  }

  /** `calculateStats` */
  method CalculateStats(inventory: seq<Stock>) returns (st: Stats)
    ensures st.totalItems == |inventory|
    ensures st.lowStockItems == |Lists.Filter(inventory, IsLow)|
    ensures st.lowStockItems <= st.totalItems
    ensures st.totalValue == ValueSum(inventory)
    ensures (forall i :: 0 <= i < |inventory| ==> NonNegative(inventory[i])) ==> st.totalValue >= 0.0
  {
    var low := 0;
    var value := 0.0;
    var i := 0;
    while i < |inventory|
      invariant 0 <= i <= |inventory|
      invariant low == |Lists.Filter(inventory[..i], IsLow)|
      invariant value == ValueSum(inventory[..i])
    {
      StatsStep(inventory, i);
      if IsLow(inventory[i]) {
        low := low + 1;
      }
      value := value + inventory[i].quantity as real * inventory[i].price.Value();
      i := i + 1;
    }
    assert inventory[..i] == inventory;
    if forall i :: 0 <= i < |inventory| ==> NonNegative(inventory[i]) {
      ValueSumNonNegative(inventory);
    }
    st := Stats(|inventory|, low, value);
  }

  // -------------------------------------------------------- list updates

  /** `handleAddItem`: the record is appended when its id is non-empty;
      otherwise the list stays as it is (and the user is alerted). */
  function AddItem(inventory: seq<Stock>, item: Stock): (r: seq<Stock>)
    ensures |r| == |inventory| + 1 <==> item.id != ""
    ensures |r| >= |inventory| && r[..|inventory|] == inventory
    ensures item.id != "" ==> r[|inventory|] == item
    ensures item.id == "" ==> r == inventory
  {
    if item.id != "" then inventory + [item] else inventory
  }

  /** `handleEditItem`: every record with the edited record's id becomes the
      edited record. */
  function EditItem(inventory: seq<Stock>, updated: Stock): (r: seq<Stock>)
    ensures |r| == |inventory|
    ensures forall i :: 0 <= i < |inventory| ==> r[i].id == inventory[i].id
    ensures forall i :: 0 <= i < |inventory| && inventory[i].id != updated.id ==> r[i] == inventory[i]
  {
    seq(|inventory|, i requires 0 <= i < |inventory| =>
      if inventory[i].id == updated.id then updated else inventory[i])
  }

  /** After an edit every record with that id is the edited one, and editing
      again with the same record changes nothing. */
  lemma EditSettles(inventory: seq<Stock>, updated: Stock)
    ensures forall s :: s in EditItem(inventory, updated) && s.id == updated.id ==> s == updated
    ensures EditItem(EditItem(inventory, updated), updated) == EditItem(inventory, updated)
    ensures (forall i :: 0 <= i < |inventory| ==> inventory[i].id != updated.id) ==> EditItem(inventory, updated) == inventory
  {
  }

  /** The entry `replenishList.find` picks for a record. */
  function EntryFor(entries: seq<Entry>, id: string): Option<Entry> {
    Lists.Find(entries, (e: Entry) => e.item.id == id)
  }

  /** `handleReplenishStock`: each record's quantity grows by the quantity of
      the first entry with its id. */
  function Replenish(inventory: seq<Stock>, entries: seq<Entry>): (r: seq<Stock>)
    ensures |r| == |inventory|
    ensures forall i :: 0 <= i < |inventory| ==>
      r[i] == inventory[i].(quantity := r[i].quantity)
  {
    seq(|inventory|, i requires 0 <= i < |inventory| =>
      match EntryFor(entries, inventory[i].id)
      case Some(e) => inventory[i].(quantity := inventory[i].quantity + e.quantity)
      case None => inventory[i])
  }

  /** `entries[j]` is the first entry with the id. */
  predicate FirstEntryAt(entries: seq<Entry>, id: string, j: int) {
    0 <= j < |entries| && entries[j].item.id == id && forall k :: 0 <= k < j ==> entries[k].item.id != id
  }

  /** Which quantity each record ends up with: its own plus that of the
      first entry with its id, and its own when no entry has the id. */
  lemma ReplenishQuantities(inventory: seq<Stock>, entries: seq<Entry>, i: int)
    requires 0 <= i < |inventory|
    ensures (forall j :: 0 <= j < |entries| ==> entries[j].item.id != inventory[i].id)
      ==> Replenish(inventory, entries)[i] == inventory[i]
    ensures forall j :: FirstEntryAt(entries, inventory[i].id, j) ==>
      Replenish(inventory, entries)[i].quantity == inventory[i].quantity + entries[j].quantity
  {
    var k := Lists.FindIndex(entries, (e: Entry) => e.item.id == inventory[i].id);
  }
}
