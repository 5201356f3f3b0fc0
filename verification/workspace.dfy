/** `AppContent`'s state and the edits it makes to the active collection:
    replace a request by id, append a new request, delete by id, create a
    collection, adopt a freshly loaded list, and record a response. Each
    edit hands back the collection to persist (`saveCollection`); ids and
    timestamps come from the host. */
module Workspace {
  import opened Wrappers
  import opened Json
  import opened Api
  import Sequences

  datatype Workspace = Workspace(
    collections: seq<Collection>,
    active: Option<Collection>,
    activeRequest: Option<ApiRequest>,
    response: Option<ApiResponse>,
    loading: bool)

  /** An edit's outcome: the new state and the collection to save, if any. */
  datatype Edit = Edit(ws: Workspace, save: Option<Collection>)

  /** `requests.map(req => req.id === u.id ? u : req)`. */
  function ReplaceById(rs: seq<ApiRequest>, u: ApiRequest): (r: seq<ApiRequest>)
    ensures |r| == |rs|
    ensures forall i :: 0 <= i < |rs| && rs[i].id == u.id ==> r[i] == u
    ensures forall i :: 0 <= i < |rs| && rs[i].id != u.id ==> r[i] == rs[i]
  {
    seq(|rs|, i requires 0 <= i < |rs| => if rs[i].id == u.id then u else rs[i])
  }

  /** `requests.filter(req => req.id !== id)`. */
  function RemoveById(rs: seq<ApiRequest>, id: string): (r: seq<ApiRequest>)
    ensures forall x :: x in r <==> x in rs && x.id != id
  {
    Sequences.Filter(rs, (x: ApiRequest) => x.id != id)
  }

  /** A single request survives the delete exactly when its id differs. */
  lemma RemoveByIdOne(x: ApiRequest, id: string)
    ensures RemoveById([x], id) == if x.id != id then [x] else []
  {
    Sequences.FilterCons(x, [], (x: ApiRequest) => x.id != id);
    assert [x] + [] == [x];
  }

  /** The delete keeps the survivors in their order, duplicates included:
      it distributes over concatenation. */
  lemma RemoveByIdAppend(a: seq<ApiRequest>, b: seq<ApiRequest>, id: string)
    ensures RemoveById(a + b, id) == RemoveById(a, id) + RemoveById(b, id)
  {
    Sequences.FilterAppend(a, b, (x: ApiRequest) => x.id != id);
  }

  /** Replacing twice with the same request is replacing once. */
  lemma ReplaceIdempotent(rs: seq<ApiRequest>, u: ApiRequest)
    ensures ReplaceById(ReplaceById(rs, u), u) == ReplaceById(rs, u)
  {
  }

  /** Deleting an id removes whatever a replacement put there: the two
      edits on one id commute into the delete alone. */
  lemma {:induction false} DeleteAfterReplace(rs: seq<ApiRequest>, u: ApiRequest)
    ensures RemoveById(ReplaceById(rs, u), u.id) == RemoveById(rs, u.id)
  {
    var keep := (x: ApiRequest) => x.id != u.id;
    if |rs| > 0 {
      var head := if rs[0].id == u.id then u else rs[0];
      assert ReplaceById(rs, u) == [head] + ReplaceById(rs[1..], u);
      Sequences.FilterCons(head, ReplaceById(rs[1..], u), keep);
      Sequences.FilterCons(rs[0], rs[1..], keep);
      Sequences.HeadTail(rs);
      DeleteAfterReplace(rs[1..], u);
    }
  }

  /** Deleting a request that was just appended under an unused id gives
      back the list as it was. */
  lemma {:induction false} DeleteUndoesAppend(rs: seq<ApiRequest>, n: ApiRequest)
    requires forall i :: 0 <= i < |rs| ==> rs[i].id != n.id
    ensures RemoveById(rs + [n], n.id) == rs
  {
    var keep := (x: ApiRequest) => x.id != n.id;
    Sequences.FilterAppend(rs, [n], keep);
    Sequences.FilterAllKept(rs, keep);
    Sequences.FilterCons(n, [], keep);
    assert [n] + [] == [n];
  }

  /** `updateRequest`: with an active collection, every request with the
      updated one's id is replaced, the collection is re-stamped, the
      updated request becomes the active one, and the collection is saved;
      without one, nothing happens. */
  function UpdateRequest(ws: Workspace, u: ApiRequest, stamp: string): (r: Edit)
    ensures ws.active.None? ==> r == Edit(ws, None)
    ensures ws.active.Some? ==>
      var c := ws.active.value;
      && r.ws == ws.(active := r.ws.active, activeRequest := Some(u))
      && r.ws.active == r.save
      && r.save == Some(c.(requests := ReplaceById(c.requests, u), updatedAt := stamp))
  {
    match ws.active
    case None => Edit(ws, None)
    case Some(c) =>
      var c' := c.(requests := ReplaceById(c.requests, u), updatedAt := stamp);
      Edit(ws.(active := Some(c'), activeRequest := Some(u)), Some(c'))
  }

  /** The request `createNewRequest` makes. */
  function NewRequest(id: string, stamp: string): (r: ApiRequest)
    ensures r.id == id && r.name == "New Request" && r.httpMethod == "GET" && r.url == ""
    ensures r.headers == [] && r.queryParams == [] && r.body.None? && r.auth.None?
  {
    ApiRequest(id, "New Request", "GET", "", [], [], None, None, stamp, stamp)
  }

  /** `createNewRequest`: with an active collection, exactly one new
      request is appended at the end and becomes active; without one,
      nothing happens. */
  function CreateNewRequest(ws: Workspace, id: string, stamp: string): (r: Edit)
    ensures ws.active.None? ==> r == Edit(ws, None)
    ensures ws.active.Some? ==>
      var c := ws.active.value;
      && r.ws.active == r.save && r.save.Some?
      && r.save.value == c.(requests := r.save.value.requests, updatedAt := stamp)
      && |r.save.value.requests| == |c.requests| + 1
      && r.save.value.requests[..|c.requests|] == c.requests
      && r.save.value.requests[|c.requests|] == NewRequest(id, stamp)
      && r.ws == ws.(active := r.save, activeRequest := Some(NewRequest(id, stamp)))
  {
    match ws.active
    case None => Edit(ws, None)
    case Some(c) =>
      var n := NewRequest(id, stamp);
      var c' := c.(requests := c.requests + [n], updatedAt := stamp);
      assert c'.requests[..|c.requests|] == c.requests;
      Edit(ws.(active := Some(c'), activeRequest := Some(n)), Some(c'))
  }

  /** `onDeleteRequest`: with an active collection, every request with the
      id goes and the rest keep their order; the active request and the
      response are cleared exactly when the active request had that id. */
  function DeleteRequest(ws: Workspace, id: string, stamp: string): (r: Edit)
    ensures ws.active.None? ==> r == Edit(ws, None)
    ensures ws.active.Some? ==>
      var c := ws.active.value;
      && r.ws.active == r.save
      && r.save == Some(c.(requests := RemoveById(c.requests, id), updatedAt := stamp))
      && r.ws.collections == ws.collections && r.ws.loading == ws.loading
      && (ws.activeRequest.Some? && ws.activeRequest.value.id == id ==> r.ws.activeRequest.None? && r.ws.response.None?)
      && (!(ws.activeRequest.Some? && ws.activeRequest.value.id == id) ==>
            r.ws.activeRequest == ws.activeRequest && r.ws.response == ws.response)
  {
    match ws.active
    case None => Edit(ws, None)
    case Some(c) =>
      var c' := c.(requests := RemoveById(c.requests, id), updatedAt := stamp);
      var ws' := ws.(active := Some(c'));
      if ws.activeRequest.Some? && ws.activeRequest.value.id == id then
        Edit(ws'.(activeRequest := None, response := None), Some(c'))
      else Edit(ws', Some(c'))
  }

  /** The collection `createNewCollection` makes. */
  function NewCollection(id: string, stamp: string): (c: Collection)
    ensures c.id == id && c.name == "New Collection" && c.description == Some("") && c.requests == []
  {
    Collection(id, "New Collection", Some(""), [], None, stamp, stamp)
  }

  /** `createNewCollection`: the new collection is saved and becomes the
      active one. */
  function CreateNewCollection(ws: Workspace, id: string, stamp: string): (r: Edit)
    ensures r.save == Some(NewCollection(id, stamp)) && r.ws.active == r.save
    ensures r.ws == ws.(active := r.save)
  {
    var c := NewCollection(id, stamp);
    Edit(ws.(active := Some(c)), Some(c))
  }

  /** `loadCollections` after a successful load: the list is adopted, and
      the first entry becomes active only when none is. */
  function LoadCollections(ws: Workspace, loaded: seq<Collection>): (r: Workspace)
    ensures r.collections == loaded
    ensures r.active == (if ws.active.None? && |loaded| > 0 then Some(loaded[0]) else ws.active)
    ensures r == ws.(collections := loaded, active := r.active)
  {
    if |loaded| > 0 && ws.active.None? then ws.(collections := loaded, active := Some(loaded[0]))
    else ws.(collections := loaded)
  }

  /** Loading never takes the selection away, and it selects something
      whenever there is something to select. */
  lemma LoadKeepsOrMakesSelection(ws: Workspace, loaded: seq<Collection>)
    ensures ws.active.Some? ==> LoadCollections(ws, loaded).active == ws.active
    ensures LoadCollections(ws, loaded).active.None? <==> ws.active.None? && |loaded| == 0
  {
  }

  /** The response recorded when `execute_request` fails. */
  function ErrorResponse(error: Json, stamp: string): (r: ApiResponse)
    ensures r.status == 0 && r.statusText == "Error" && r.size == 0 && r.headers == map[]
    ensures r.responseTime == 0 && r.data == JObject(map["error" := error])
  {
    ApiResponse(0, "Error", map[], JObject(map["error" := error]), 0, 0, stamp)
  }

  /** `executeRequest` once the call has returned: a result is shown with
      the front end's own timing and time stamp; a failure becomes the
      error response. Loading is over either way. */
  function FinishExecution(ws: Workspace, outcome: Result<ApiResponse, Json>, start: int, end: int, stamp: string): (r: Workspace)
    ensures !r.loading && r.response.Some?
    ensures outcome.Success? ==> r.response.value == outcome.value.(responseTime := end - start, timestamp := stamp)
    ensures outcome.Failure? ==> r.response.value == ErrorResponse(outcome.error, stamp)
    ensures r == ws.(response := r.response, loading := false)
  {
    match outcome
    case Success(res) => ws.(response := Some(res.(responseTime := end - start, timestamp := stamp)), loading := false)
    case Failure(e) => ws.(response := Some(ErrorResponse(e, stamp)), loading := false)
  }
}
