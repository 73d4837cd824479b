/** The stock page as a state machine: the inventory it holds, the filtered
    view and its page, the delete dialog, and the handlers and effects that
    move between them. */
module StockPage {
  import opened Options
  import opened Cache
  import opened StockTypes
  import opened JsNumber
  import StockApi
  import Inventory
  import Lists

  datatype Page = Page(
    inventory: seq<Stock>, filtered: seq<Stock>, searchTerm: string,
    currentPage: int, deleteOpen: bool, itemToDelete: Option<Stock>)

  const Initial := Page([], [], "", 1, false, None)

  /** The search effect, which React runs whenever the term or the
      inventory array changes: the view is recomputed and the first page
      shown. */
  function FilterEffect(p: Page): (r: Page)
    ensures r.filtered == Inventory.Search(p.inventory, p.searchTerm)
    ensures r.currentPage == 1
    ensures r.inventory == p.inventory && r.searchTerm == p.searchTerm
    ensures r.deleteOpen == p.deleteOpen && r.itemToDelete == p.itemToDelete
  {
    p.(filtered := Inventory.Search(p.inventory, p.searchTerm), currentPage := 1)
  }

  /** Running the effect twice is running it once. */
  lemma FilterEffectIdempotent(p: Page)
    ensures FilterEffect(FilterEffect(p)) == FilterEffect(p)
  {
  }

  /** The data effect: a loaded list replaces both the inventory and the
      view, and the new inventory then triggers the search effect. A query
      that has no data leaves the page alone. Each cached row becomes the
      record the page mapper makes of it: its name and unit fall back when
      empty, and its price keeps its value in the shortest spelling. */
  function DataLoaded(p: Page, data: Option<seq<StockApi.CachedStock>>): (r: Page)
    ensures data.None? ==> r == p
    ensures data.Some? ==> |r.inventory| == |data.value| && r.currentPage == 1
    ensures data.Some? ==> forall i :: 0 <= i < |data.value| ==>
      var c := data.value[i];
      r.inventory[i] == Stock(c.id, if c.item != "" then c.item else "Unknown Item", c.quantity,
                              if c.unit != "" then c.unit else "unit", c.minThreshold, Normalize(c.price))
    ensures data.Some? ==> r.filtered == Inventory.Search(r.inventory, p.searchTerm)
    ensures r.searchTerm == p.searchTerm && r.deleteOpen == p.deleteOpen && r.itemToDelete == p.itemToDelete
  {
    match data
    case None => p
    case Some(rows) =>
      var inventory := Inventory.MapApiResponse(seq(|rows|, i requires 0 <= i < |rows| => Inventory.RowOf(rows[i])));
      FilterEffect(p.(inventory := inventory, filtered := inventory))
  }

  /** Rows the stock slice delivered reach the page field for field: the
      slice already filled in the fallbacks, so only the spelling of the
      price changes, never its value. */
  lemma DataLoadedFromSlice(p: Page, rows: seq<ApiRow>)
    ensures var r := DataLoaded(p, Some(StockApi.TransformResponse(rows)));
      && |r.inventory| == |rows|
      && forall i :: 0 <= i < |rows| ==>
           var c := StockApi.TransformRow(rows[i]);
           && r.inventory[i] == Stock(c.id, c.item, c.quantity, c.unit, c.minThreshold, Normalize(c.price))
           && r.inventory[i].price.Value() == c.price.Value()
  {
  }

  /** Typing into the search box. */
  function SetSearch(p: Page, term: string): (r: Page)
    ensures r.searchTerm == term && r.inventory == p.inventory && r.currentPage == 1
    ensures forall s :: s in r.filtered <==> s in p.inventory && (term == "" || Inventory.Matches(term, s))
    ensures r.filtered == Inventory.Search(p.inventory, term)
    ensures r.deleteOpen == p.deleteOpen && r.itemToDelete == p.itemToDelete
  {
    forall s ensures s in Inventory.Search(p.inventory, term) <==> s in p.inventory && (term == "" || Inventory.Matches(term, s)) {
      Inventory.SearchMembership(p.inventory, term, s);
    }
    FilterEffect(p.(searchTerm := term))
  }

  /** `handlePageChange` */
  function ChangePage(p: Page, page: int): (r: Page)
    ensures r.currentPage == page
    ensures r.inventory == p.inventory && r.filtered == p.filtered && r.searchTerm == p.searchTerm
    ensures r.deleteOpen == p.deleteOpen && r.itemToDelete == p.itemToDelete
  {
    p.(currentPage := page)
  }

  /** The records shown on the current page: at most ten, all from the
      view; a page within the page count shows some, a page past it shows
      none. */
  function CurrentItems(p: Page): (r: seq<Stock>)
    ensures |r| <= Inventory.PageSize
    ensures forall s :: s in r ==> s in p.filtered
    ensures 1 <= p.currentPage <= Inventory.TotalPages(|p.filtered|) ==> r != []
    ensures p.currentPage > Inventory.TotalPages(|p.filtered|) ==> r == []
  {
    Inventory.PagesCoverList(p.filtered);
    Inventory.PageItems(p.filtered, p.currentPage)
  }

  /** `setInventoryData` with a new array, followed by the search effect. */
  function SetInventory(p: Page, inventory: seq<Stock>): (r: Page)
    ensures r.inventory == inventory && r.currentPage == 1
    ensures r.filtered == Inventory.Search(inventory, p.searchTerm)
    ensures r.searchTerm == p.searchTerm && r.deleteOpen == p.deleteOpen && r.itemToDelete == p.itemToDelete
  {
    FilterEffect(p.(inventory := inventory))
  }

  /** `handleAddItem`: a record without an id is refused and the page does
      not change. */
  function AddItem(p: Page, item: Stock): (r: Page)
    ensures item.id == "" ==> r == p
    ensures item.id != "" ==> r.inventory == p.inventory + [item] && r.currentPage == 1
    ensures item.id != "" ==> r.filtered == Inventory.Search(r.inventory, p.searchTerm)
    ensures r.searchTerm == p.searchTerm && r.deleteOpen == p.deleteOpen && r.itemToDelete == p.itemToDelete
  {
    if item.id != "" then SetInventory(p, Inventory.AddItem(p.inventory, item)) else p
  }

  /** `handleEditItem` */
  function EditItem(p: Page, item: Stock): (r: Page)
    ensures r.inventory == Inventory.EditItem(p.inventory, item)
    ensures r.filtered == Inventory.Search(r.inventory, p.searchTerm) && r.currentPage == 1
    ensures r.searchTerm == p.searchTerm && r.deleteOpen == p.deleteOpen && r.itemToDelete == p.itemToDelete
  {
    SetInventory(p, Inventory.EditItem(p.inventory, item))
  }

  /** `handleReplenishStock` */
  function ReplenishItems(p: Page, entries: seq<Entry>): (r: Page)
    ensures r.inventory == Inventory.Replenish(p.inventory, entries)
    ensures r.filtered == Inventory.Search(r.inventory, p.searchTerm) && r.currentPage == 1
    ensures r.searchTerm == p.searchTerm && r.deleteOpen == p.deleteOpen && r.itemToDelete == p.itemToDelete
  {
    SetInventory(p, Inventory.Replenish(p.inventory, entries))
  }

  // -------------------------------------------------------------- delete

  /** `handleDeleteItem`: the dialog opens on the record. */
  function AskDelete(p: Page, item: Stock): (r: Page)
    ensures r.deleteOpen && r.itemToDelete == Some(item)
    ensures r.inventory == p.inventory && r.filtered == p.filtered && r.currentPage == p.currentPage
    ensures r.searchTerm == p.searchTerm
  {
    p.(itemToDelete := Some(item), deleteOpen := true)
  }

  /** `cancelDelete` */
  function CancelDelete(p: Page): (r: Page)
    ensures !r.deleteOpen && r.itemToDelete.None?
    ensures r.inventory == p.inventory && r.filtered == p.filtered && r.currentPage == p.currentPage
    ensures r.searchTerm == p.searchTerm
  {
    p.(itemToDelete := None, deleteOpen := false)
  }

  /** The request `confirmDelete` sends, and the page it leaves before any
      effect runs. */
  datatype Deletion = Deletion(request: Option<Request>, page: Page)

  /** The page to show after a successful delete: the first, when the
      current page lies beyond the pages of one record fewer and there is at
      least one such page. */
  function PageAfterDelete(currentPage: int, filteredLength: int): (r: int)
    ensures r == currentPage || r == 1
    ensures r == 1 <==> currentPage == 1 || (currentPage > Inventory.CeilDiv(filteredLength - 1, Inventory.PageSize) > 0)
  {
    var newTotal := Inventory.CeilDiv(filteredLength - 1, Inventory.PageSize);
    if currentPage > newTotal && newTotal > 0 then 1 else currentPage
  }

  /** `confirmDelete`. Without a record nothing happens. Otherwise the
      delete request is sent and, whether it succeeds or fails, every record
      with the id leaves the inventory and the dialog closes; only on success
      may the page be reset. */
  function ConfirmDelete(p: Page, outcome: Outcome): (d: Deletion)
    ensures p.itemToDelete.None? ==> d == Deletion(None, p)
    ensures p.itemToDelete.Some? ==>
      var id := p.itemToDelete.value.id;
      && d.request == Some(StockApi.DeleteRequest(id))
      && d.page.inventory == Lists.Filter(p.inventory, (s: Stock) => s.id != id)
      && (forall s :: s in d.page.inventory <==> s in p.inventory && s.id != id)
      && !d.page.deleteOpen && d.page.itemToDelete.None?
      && d.page.filtered == p.filtered && d.page.searchTerm == p.searchTerm
      && d.page.currentPage == (if outcome == Fulfilled then PageAfterDelete(p.currentPage, |p.filtered|) else p.currentPage)
  {
    match p.itemToDelete
    case None => Deletion(None, p)
    case Some(item) =>
      var keep := (s: Stock) => s.id != item.id;
      var inventory := Lists.Filter(p.inventory, keep);
      forall s ensures s in inventory <==> s in p.inventory && keep(s) {
        Lists.FilterMembership(p.inventory, keep, s);
      }
      var page := if outcome == Fulfilled then PageAfterDelete(p.currentPage, |p.filtered|) else p.currentPage;
      Deletion(Some(StockApi.DeleteRequest(item.id)),
               p.(inventory := inventory, currentPage := page, deleteOpen := false, itemToDelete := None))
  }

  /** Once the search effect has run on the new inventory, the outcome no
      longer matters: the page is the first, the record is gone from the
      view too, and the dialog is closed. */
  lemma DeleteThenEffect(p: Page)
    requires p.itemToDelete.Some?
    ensures FilterEffect(ConfirmDelete(p, Fulfilled).page) == FilterEffect(ConfirmDelete(p, Rejected).page)
    ensures var r := FilterEffect(ConfirmDelete(p, Fulfilled).page);
      && r.currentPage == 1 && !r.deleteOpen
      && forall s :: s in r.filtered ==> s in p.inventory && s.id != p.itemToDelete.value.id
  {
    var r := FilterEffect(ConfirmDelete(p, Fulfilled).page);
    var id := p.itemToDelete.value.id;
    forall s | s in r.filtered ensures s in p.inventory && s.id != id {
      Inventory.SearchMembership(ConfirmDelete(p, Fulfilled).page.inventory, p.searchTerm, s);
    }
  }
}
