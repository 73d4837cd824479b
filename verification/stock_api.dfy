/** The stock slice (`StockApiSlice`): normalisation of `webhook/get-stock`
    rows, the tags the list provides, the requests each mutation sends, the
    tags it invalidates, and the optimistic delete. */
module StockApi {
  import opened Options
  import opened JsNumber
  import opened Json
  import opened Cache
  import opened StockTypes
  import Lists

  /** `IStocks`: a row as the slice caches it. */
  datatype CachedStock = CachedStock(id: string, item: string, quantity: int, unit: string, price: Decimal, minThreshold: int)

  /** The body of `transformResponse` for one row. */
  function TransformRow(row: ApiRow): (c: CachedStock)
    ensures c.id == IdString(row.id)
    ensures c.item != "" && c.unit != ""
    ensures row.item.Some? && row.item.value != "" ==> c.item == row.item.value
    ensures row.item.None? || row.item.value == "" ==> c.item == "Unknown Item"
    ensures c.quantity == if row.quantity.Some? then row.quantity.value else 0
    ensures row.unit.Some? && row.unit.value != "" ==> c.unit == row.unit.value
    ensures row.unit.None? || row.unit.value == "" ==> c.unit == "unit"
    ensures c.price == CoercePrice(row.price)
    ensures c.minThreshold == if row.minThreshold.Some? then row.minThreshold.value else 0
  {
    CachedStock(IdString(row.id), TextOr(row.item, "Unknown Item"), row.quantity.GetOr(0),
                TextOr(row.unit, "unit"), CoercePrice(row.price), IntOrZero(row.minThreshold))
  }

  /** `transformResponse`: one cached row per API row, in the same order. */
  function TransformResponse(rows: seq<ApiRow>): (r: seq<CachedStock>)
    ensures |r| == |rows|
    ensures forall i :: 0 <= i < |rows| ==> r[i] == TransformRow(rows[i])
  {
    seq(|rows|, i requires 0 <= i < |rows| => TransformRow(rows[i]))
  }

  /** The per-item tags: one for each cached row with a non-empty id, in order. */
  function ItemTags(rows: seq<CachedStock>): (r: seq<Tag>)
    ensures |r| <= |rows|
  {
    if rows == [] then []
    else (if rows[0].id != "" then [IdTag(rows[0].id)] else []) + ItemTags(rows[1..])
  }

  lemma {:induction false} ItemTagsMembership(rows: seq<CachedStock>, id: string)
    ensures IdTag(id) in ItemTags(rows) <==> id != "" && exists i :: 0 <= i < |rows| && rows[i].id == id
  {
    if rows != [] {
      ItemTagsMembership(rows[1..], id);
      if exists i :: 0 <= i < |rows[1..]| && rows[1..][i].id == id {
        var i :| 0 <= i < |rows[1..]| && rows[1..][i].id == id;
        assert rows[i + 1].id == id;
      }
      if exists i :: 0 <= i < |rows| && rows[i].id == id {
        var i :| 0 <= i < |rows| && rows[i].id == id;
        if i > 0 { assert rows[1..][i - 1].id == id; }
      }
    }
  }

  /** `providesTags`: the list tag always, last; before it, a tag per cached
      row that has an id. A failed query provides the list tag alone. */
  function ProvidesTags(result: Option<seq<CachedStock>>): (r: seq<Tag>)
    ensures |r| >= 1 && r[|r| - 1] == ListTag
    ensures result.None? ==> r == [ListTag]
    ensures result.Some? ==> r[..|r| - 1] == ItemTags(result.value)
  {
    match result
    case None => [ListTag]
    case Some(rows) => ItemTags(rows) + [ListTag]
  }

  /** Which row ids are tagged: exactly the non-empty ones of the cached list. */
  lemma ProvidedIds(rows: seq<CachedStock>, id: string)
    requires id != "LIST"
    ensures IdTag(id) in ProvidesTags(Some(rows)) <==> id != "" && exists i :: 0 <= i < |rows| && rows[i].id == id
  {
    ItemTagsMembership(rows, id);
    var r := ProvidesTags(Some(rows));
    assert r == ItemTags(rows) + [ListTag];
  }

  // ------------------------------------------------------------- requests

  const BaseUrl := "https://primary-production-c413.up.railway.app/"

  const ListRequest := Request(GET, "webhook/get-stock", map[])

  /** `createDashboardStock`: the body is sent as it is. */
  function CreateRequest(body: Object): (r: Request)
    ensures r.verb == POST && r.url == "webhook/manage-stock" && r.body == body
  {
    Request(POST, "webhook/manage-stock", body)
  }

  /** `updateDashboardStock`: `{ ...body, id }`, so the argument id wins
      over any `id` in the body. */
  function UpdateRequest(id: string, body: Object): (r: Request)
    ensures r.verb == PUT && r.url == "webhook/update-stock"
    ensures r.body.Keys == body.Keys + {"id"} && r.body["id"] == JStr(id)
    ensures forall k :: k in body && k != "id" ==> r.body[k] == body[k]
  {
    IdLastRequest(PUT, "webhook/update-stock", id, body)
  }

  /** `deleteDashboardStock`: the id travels in the body. */
  function DeleteRequest(id: string): (r: Request)
    ensures r.verb == DELETE && r.url == "webhook/delete" && r.body == map["id" := JStr(id)]
  {
    IdOnlyRequest(DELETE, "webhook/delete", id)
  }

  /** `updateDashboardQuantity`: `{ id, ...body }`, so an `id` in the body
      would win over the argument. */
  function AddQuantityRequest(id: string, body: Object): (r: Request)
    ensures r.verb == PUT && r.url == "webhook/add-quantity"
    ensures r.body.Keys == body.Keys + {"id"}
    ensures r.body["id"] == if "id" in body then body["id"] else JStr(id)
    ensures forall k :: k in body ==> r.body[k] == body[k]
  {
    IdFirstRequest(PUT, "webhook/add-quantity", id, body)
  }

  /** The two spread orders send the same object whenever the body has no
      `id` of its own, which is always the case for `Partial<IUpdate>`. */
  lemma SpreadOrderIrrelevantWithoutId(id: string, body: Object)
    requires "id" !in body
    ensures UpdateRequest(id, body).body == AddQuantityRequest(id, body).body
  {
  }

  /** The method and path a request is routed by. */
  function Route(r: Request): (Method, string) {
    (r.verb, r.url)
  }

  /** No two of the slice's endpoints share a route, so the server tells the
      list query and the four mutations apart by method and path alone; a
      create request carries exactly the body it was made from, and a delete
      request exactly its id. */
  lemma RoutesDistinct(id: string, id': string, body: Object, body': Object)
    ensures var routes := [Route(ListRequest), Route(CreateRequest(body)), Route(UpdateRequest(id, body)),
                           Route(DeleteRequest(id)), Route(AddQuantityRequest(id, body))];
      forall i, j :: 0 <= i < j < |routes| ==> routes[i] != routes[j]
    ensures CreateRequest(body) == CreateRequest(body') <==> body == body'
    ensures DeleteRequest(id) == DeleteRequest(id') <==> id == id'
  {
    if DeleteRequest(id) == DeleteRequest(id') {
      assert DeleteRequest(id).body["id"] == DeleteRequest(id').body["id"];
    }
  }

  /** The slice's mutations, by what they are called with. */
  datatype Mutation = Create | Update(id: string) | Remove(id: string) | AddQuantity(id: string) | Refetch

  /** `invalidatesTags` of each mutation (and, for `refetchDashboardStock`,
      the tags its `queryFn` invalidates). */
  function Invalidates(m: Mutation): seq<Tag> {
    match m
    case Create => [ListTag]
    case Refetch => [ListTag]
    case Update(id) => [IdTag(id), ListTag]
    case Remove(id) => [IdTag(id), ListTag]
    case AddQuantity(id) => [IdTag(id), ListTag]
  }

  /** Every mutation invalidates the list tag, which every list query
      provides, so every mutation leads to a refetch of the list; a mutation
      of one row invalidates exactly that row's tag and the list tag. */
  lemma MutationsRefetchList(m: Mutation, result: Option<seq<CachedStock>>)
    ensures ListTag in Invalidates(m) && ListTag in ProvidesTags(result)
    ensures !m.Create? && !m.Refetch? ==> (set t | t in Invalidates(m)) == {IdTag(m.id), ListTag}
    ensures m.Create? || m.Refetch? ==> (set t | t in Invalidates(m)) == {ListTag}
  {
  }

  // --------------------------------------------------- optimistic delete

  predicate HasId(id: string, c: CachedStock) {
    c.id == id
  }

  /** The position of the first cached row with the id, or -1. */
  function FirstWithId(cache: seq<CachedStock>, id: string): (k: int)
    ensures -1 <= k < |cache|
    ensures k == -1 <==> forall i :: 0 <= i < |cache| ==> cache[i].id != id
    ensures k >= 0 ==> cache[k].id == id && forall j :: 0 <= j < k ==> cache[j].id != id
  {
    Lists.FindIndex(cache, c => HasId(id, c))
  }

  /** The cached list after `deleteDashboardStock(id)` settles: the first
      row with that id is spliced out at once, and the splice is undone if the
      request is rejected. */
  function OptimisticDelete(cache: seq<CachedStock>, id: string, outcome: Outcome): (r: seq<CachedStock>)
    ensures outcome == Rejected ==> r == cache
    ensures FirstWithId(cache, id) == -1 ==> r == cache
    ensures outcome == Fulfilled && FirstWithId(cache, id) >= 0 ==>
      r == cache[..FirstWithId(cache, id)] + cache[FirstWithId(cache, id) + 1..]
  {
    var patched := Lists.RemoveFirst(cache, c => HasId(id, c));
    Settle(cache, patched, outcome)
  }

  /** A fulfilled delete shortens the cached list by one exactly when some
      row has the id, and only the first such row goes. */
  lemma {:induction false} DeleteRemovesFirstOnly(cache: seq<CachedStock>, id: string)
    ensures var r := OptimisticDelete(cache, id, Fulfilled);
      && (|r| == |cache| - 1 <==> exists i :: 0 <= i < |cache| && cache[i].id == id)
      && (|r| == |cache| <==> forall i :: 0 <= i < |cache| ==> cache[i].id != id)
  {
    var k := FirstWithId(cache, id);
    if k >= 0 {
      assert cache[k].id == id;
    }
  }
}
