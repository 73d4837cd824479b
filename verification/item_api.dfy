/** The menu slice (`ItemApiSlice`): numbering of `webhook/get-menu` rows,
    the tags the list provides, the requests each mutation sends, the tags it
    invalidates, and the optimistic update and delete. Menu items are kept as
    JSON objects because the slice spreads and merges them wholesale. */
module ItemApi {
  import opened Options
  import opened JsNumber
  import opened Json
  import opened Cache
  import Lists

  type MenuItem = Object

  /** The body of `transformResponse` for the row at `index`:
      `{ ...item, row_number: index + 1, id: item.id || item._id }`. */
  function TransformRow(row: MenuItem, index: nat): (r: MenuItem)
    ensures r.Keys == row.Keys + {"row_number", "id"}
    ensures r["row_number"] == JNum(FromInt(index + 1))
    ensures Truthy(Get(row, "id")) ==> r["id"] == row["id"]
    ensures !Truthy(Get(row, "id")) ==> r["id"] == Get(row, "_id")
    ensures forall k :: k in row && k != "row_number" && k != "id" ==> r[k] == row[k]
  {
    Spread(row, map["row_number" := JNum(FromInt(index + 1)), "id" := Or(Get(row, "id"), Get(row, "_id"))])
  }

  /** `transformResponse`: every row numbered from 1 in list order. */
  function TransformResponse(rows: seq<MenuItem>): (r: seq<MenuItem>)
    ensures |r| == |rows|
    ensures forall i :: 0 <= i < |rows| ==> r[i] == TransformRow(rows[i], i)
  {
    seq(|rows|, i requires 0 <= i < |rows| => TransformRow(rows[i], i))
  }

  /** The row numbers of a transformed list are 1..n, in order, with each
      row keeping every other field it came with. */
  lemma RowNumbers(rows: seq<MenuItem>, r: seq<MenuItem>)
    requires |r| == |rows|
    requires forall i :: 0 <= i < |rows| ==> r[i] == TransformRow(rows[i], i)
    ensures forall i :: 0 <= i < |r| ==> Get(r[i], "row_number") == JNum(Decimal(i + 1, 0))
    ensures forall i, j :: 0 <= i < j < |r| ==> Get(r[i], "row_number") != Get(r[j], "row_number")
  {
  }

  /** `providesTags`: a tag per row id (whatever the id is), then the list tag. */
  function ProvidesTags(result: Option<seq<MenuItem>>): (r: seq<Tag>)
    ensures |r| >= 1 && r[|r| - 1] == ListTag
    ensures result.None? ==> r == [ListTag]
    ensures result.Some? ==> |r| == |result.value| + 1
    ensures result.Some? ==> forall i :: 0 <= i < |result.value| ==> r[i] == Tag(Get(result.value[i], "id"))
  {
    match result
    case None => [ListTag]
    case Some(rows) => seq(|rows|, i requires 0 <= i < |rows| => Tag(Get(rows[i], "id"))) + [ListTag]
  }

  // ------------------------------------------------------------- requests

  const BaseUrl := "https://primary-production-d29f0.up.railway.app/"

  const ListRequest := Request(GET, "webhook/get-menu", map[])

  /** `createDashboardItem`: the body is sent as it is. */
  function CreateRequest(body: Object): (r: Request)
    ensures r.verb == POST && r.url == "webhook/add-menu-item" && r.body == body
  {
    Request(POST, "webhook/add-menu-item", body)
  }

  /** `updateDashboardItem`: `{ id, ...body }`; the body may carry its own
      `id` (`IUpdate` has one), and then that one is sent. */
  function UpdateRequest(id: string, body: Object): (r: Request)
    ensures r.verb == PUT && r.url == "webhook/update-item"
    ensures r.body.Keys == body.Keys + {"id"}
    ensures r.body["id"] == if "id" in body then body["id"] else JStr(id)
    ensures forall k :: k in body ==> r.body[k] == body[k]
  {
    IdFirstRequest(PUT, "webhook/update-item", id, body)
  }

  /** `deleteDashboardItem`: the id travels in the body. */
  function DeleteRequest(id: string): (r: Request)
    ensures r.verb == DELETE && r.url == "webhook/delete-menu-item" && r.body == map["id" := JStr(id)]
  {
    IdOnlyRequest(DELETE, "webhook/delete-menu-item", id)
  }

  /** The method and path a request is routed by. */
  function Route(r: Request): (Method, string) {
    (r.verb, r.url)
  }

  /** No two of the slice's endpoints share a route, so the server tells the
      list query and the three mutations apart by method and path alone; a
      create request carries exactly the body it was made from, and a delete
      request exactly its id. */
  lemma RoutesDistinct(id: string, id': string, body: Object, body': Object)
    ensures var routes := [Route(ListRequest), Route(CreateRequest(body)), Route(UpdateRequest(id, body)),
                           Route(DeleteRequest(id))];
      forall i, j :: 0 <= i < j < |routes| ==> routes[i] != routes[j]
    ensures CreateRequest(body) == CreateRequest(body') <==> body == body'
    ensures DeleteRequest(id) == DeleteRequest(id') <==> id == id'
  {
    if DeleteRequest(id) == DeleteRequest(id') {
      assert DeleteRequest(id).body["id"] == DeleteRequest(id').body["id"];
    }
  }

  datatype Mutation = Create | Update(id: string) | Remove(id: string)

  function Invalidates(m: Mutation): seq<Tag> {
    match m
    case Create => [ListTag]
    case Update(id) => [IdTag(id), ListTag]
    case Remove(id) => [IdTag(id), ListTag]
  }

  /** Every mutation invalidates the list tag that every list query provides;
      update and delete invalidate exactly the row's tag and the list tag. */
  lemma MutationsRefetchList(m: Mutation, result: Option<seq<MenuItem>>)
    ensures ListTag in Invalidates(m) && ListTag in ProvidesTags(result)
    ensures !m.Create? ==> (set t | t in Invalidates(m)) == {IdTag(m.id), ListTag}
    ensures m.Create? ==> (set t | t in Invalidates(m)) == {ListTag}
  {
  }

  // ------------------------------------------------ optimistic patches

  /** `item.id === id` */
  predicate HasId(id: string, item: MenuItem) {
    Get(item, "id") == JStr(id)
  }

  /** The position of the first cached item with the id, or -1. */
  function FirstWithId(cache: seq<MenuItem>, id: string): (k: int)
    ensures -1 <= k < |cache|
    ensures k == -1 <==> forall i :: 0 <= i < |cache| ==> !HasId(id, cache[i])
    ensures k >= 0 ==> HasId(id, cache[k]) && forall j :: 0 <= j < k ==> !HasId(id, cache[j])
  {
    Lists.FindIndex(cache, item => HasId(id, item))
  }

  /** The cached list after `updateDashboardItem({id, body})` settles: the
      body is merged into the first item with the id at once
      (`Object.assign`), and the merge is undone if the request is rejected. */
  function OptimisticUpdate(cache: seq<MenuItem>, id: string, body: Object, outcome: Outcome): (r: seq<MenuItem>)
    ensures outcome == Rejected ==> r == cache
    ensures |r| == |cache|
    ensures FirstWithId(cache, id) == -1 ==> r == cache
    ensures outcome == Fulfilled ==> forall i :: 0 <= i < |cache| && i != FirstWithId(cache, id) ==> r[i] == cache[i]
    ensures outcome == Fulfilled && FirstWithId(cache, id) >= 0 ==>
      var k := FirstWithId(cache, id);
      && r[k].Keys == cache[k].Keys + body.Keys
      && (forall f :: f in body ==> r[k][f] == body[f])
      && (forall f :: f in cache[k] && f !in body ==> r[k][f] == cache[k][f])
  {
    var k := FirstWithId(cache, id);
    var patched := if k == -1 then cache else cache[k := Spread(cache[k], body)];
    Settle(cache, patched, outcome)
  }

  /** The cached list after `deleteDashboardItem(id)` settles: the first item
      with the id is spliced out at once, and put back if the request is
      rejected. */
  function OptimisticDelete(cache: seq<MenuItem>, id: string, outcome: Outcome): (r: seq<MenuItem>)
    ensures outcome == Rejected ==> r == cache
    ensures FirstWithId(cache, id) == -1 ==> r == cache
    ensures outcome == Fulfilled && FirstWithId(cache, id) >= 0 ==>
      r == cache[..FirstWithId(cache, id)] + cache[FirstWithId(cache, id) + 1..]
  {
    var patched := Lists.RemoveFirst(cache, item => HasId(id, item));
    Settle(cache, patched, outcome)
  }

  /** A fulfilled delete shortens the list by one exactly when some item has
      the id; items before the first match keep their positions and the
      later ones move up by one. */
  lemma {:induction false} DeleteShortensIffPresent(cache: seq<MenuItem>, id: string)
    ensures var r := OptimisticDelete(cache, id, Fulfilled);
      && (|r| == |cache| - 1 <==> exists i :: 0 <= i < |cache| && HasId(id, cache[i]))
      && (|r| == |cache| <==> forall i :: 0 <= i < |cache| ==> !HasId(id, cache[i]))
  {
    var k := FirstWithId(cache, id);
    if k >= 0 {
      assert HasId(id, cache[k]);
    }
  }
}
