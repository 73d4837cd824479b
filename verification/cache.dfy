/** What the two RTK Query slices have in common: cache tags, emitted
    requests, and optimistic patches that are undone when the request fails. */
module Cache {
  import opened Json

  /** `{ type: 'DashboardItems', id }`; both slices use the one tag type. */
  datatype Tag = Tag(id: Json)

  /** `{ type: 'DashboardItems', id: 'LIST' }` */
  const ListTag := Tag(JStr("LIST"))

  function IdTag(id: string): Tag {
    Tag(JStr(id))
  }

  datatype Method = GET | POST | PUT | DELETE

  /** A request handed to `fetchBaseQuery`: method, path below the base URL, JSON body. */
  datatype Request = Request(verb: Method, url: string, body: Object)

  /** A request whose body is `{ id, ...body }`: an `id` inside the body
      wins over the argument. */
  function IdFirstRequest(verb: Method, url: string, id: string, body: Object): (r: Request)
    ensures r.verb == verb && r.url == url
    ensures r.body.Keys == body.Keys + {"id"}
    ensures r.body["id"] == if "id" in body then body["id"] else JStr(id)
    ensures forall k :: k in body ==> r.body[k] == body[k]
  {
    Request(verb, url, Spread(map["id" := JStr(id)], body))
  }

  /** A request whose body is `{ ...body, id }`: the argument id wins over
      any `id` inside the body. */
  function IdLastRequest(verb: Method, url: string, id: string, body: Object): (r: Request)
    ensures r.verb == verb && r.url == url
    ensures r.body.Keys == body.Keys + {"id"} && r.body["id"] == JStr(id)
    ensures forall k :: k in body && k != "id" ==> r.body[k] == body[k]
  {
    Request(verb, url, Spread(body, map["id" := JStr(id)]))
  }

  /** A request whose body is the id alone. */
  function IdOnlyRequest(verb: Method, url: string, id: string): Request {
    Request(verb, url, map["id" := JStr(id)])
  }

  /** Whether the awaited `queryFulfilled` resolved or rejected. */
  datatype Outcome = Fulfilled | Rejected

  /** `onQueryStarted` with `updateQueryData`: the patched cache stays when the
      query is fulfilled, and `patchResult.undo()` restores the snapshot taken
      before the patch when it is rejected. */
  function Settle<T>(snapshot: T, patched: T, outcome: Outcome): (r: T)
    ensures outcome == Rejected ==> r == snapshot
    ensures outcome == Fulfilled ==> r == patched
  {
    if outcome == Fulfilled then patched else snapshot
  }

  /** An item whose id is the text "LIST" gets the same tag as the list itself. */
  lemma ListIdCollides()
    ensures IdTag("LIST") == ListTag
  {
  }
}
