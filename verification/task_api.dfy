/** The task client: the `Task` record, the request each endpoint sends, the
    `Authorization` header it attaches, and the cache tags each endpoint
    provides or invalidates. */
module TaskApi {
  import opened Wrappers
  import Storage
  import Text

  /** A task's status has exactly two values. */
  datatype Status = Pending | Completed

  /** A task as the server returns it; the timestamps are opaque strings. */
  datatype Task = Task(id: string, userId: string, name: string, status: Status,
                       createdAt: string, updatedAt: string)

  /** The body of an add request: a name and a status, nothing else. */
  datatype NewTask = NewTask(name: string, status: Status)

  /** `Partial<Task>`: each field may be present or absent. */
  datatype TaskPatch = TaskPatch(id: Option<string>, userId: Option<string>, name: Option<string>,
                                 status: Option<Status>, createdAt: Option<string>,
                                 updatedAt: Option<string>)

  /** A patch that sets the status and leaves every other field absent. */
  function StatusPatch(s: Status): TaskPatch
  {
    TaskPatch(None, None, None, Some(s), None, None)
  }

  // ---------------------------------------------------------------------
  // Authorization header

  type Headers = map<string, string>

  const Authorization: string := "Authorization"
  const BearerPrefix: string := "Bearer "

  /** `getToken`: outside a browser there is no `window` and the token is null;
      in a browser it is whatever `localStorage` holds under "token". */
  function GetToken(inBrowser: bool, st: Storage.Store): Option<string>
  {
    if inBrowser then Storage.GetItem(st, Storage.TokenKey) else None
  }

  /** `prepareHeaders`: with a truthy token, `Authorization` is set to
      `Bearer <token>` (replacing any earlier value); every other header is
      left as it was; with a null or empty token nothing changes. */
  function PrepareHeaders(headers: Headers, inBrowser: bool, st: Storage.Store): (r: Headers)
    ensures var token := GetToken(inBrowser, st);
      Storage.Truthy(token) ==> Authorization in r && r[Authorization] == BearerPrefix + token.value
    ensures !Storage.Truthy(GetToken(inBrowser, st)) ==> r == headers
    ensures forall k :: k != Authorization ==> (k in r <==> k in headers)
    ensures forall k :: k in headers && k != Authorization ==> r[k] == headers[k]
  {
    var token := GetToken(inBrowser, st);
    if Storage.Truthy(token) then headers[Authorization := BearerPrefix + token.value] else headers
  }

  /** The token can be read back from the header `prepareHeaders` sets: the
      value starts with "Bearer " and the rest is exactly the stored token. */
  lemma AuthorizationCarriesToken(headers: Headers, st: Storage.Store)
    requires Storage.Truthy(Storage.GetItem(st, Storage.TokenKey))
    ensures var h := PrepareHeaders(headers, true, st)[Authorization];
      Text.StartsWith(h, BearerPrefix) && h[|BearerPrefix|..] == st[Storage.TokenKey]
  {
    var h := PrepareHeaders(headers, true, st)[Authorization];
    assert h == BearerPrefix + st[Storage.TokenKey];
    assert h[..|BearerPrefix|] == BearerPrefix;
  }

  // ---------------------------------------------------------------------
  // Endpoints and requests

  datatype Query = GetTasks | GetTaskById(id: string)

  datatype Mutation =
    | AddTask(body: NewTask)
    | UpdateTask(id: string, data: TaskPatch)
    | DeleteTask(id: string)

  datatype Verb = GET | POST | PUT | DELETE

  datatype Body = NoBody | NewTaskBody(task: NewTask) | PatchBody(patch: TaskPatch)

  /** A request relative to the task resource's base URL. */
  datatype Request = Request(verb: Verb, path: string, body: Body)

  function QueryRequest(q: Query): (r: Request)
    ensures r.verb == GET && r.body == NoBody
    ensures q.GetTasks? ==> r.path == "/"
    ensures q.GetTaskById? ==> r.path == "/" + q.id
  {
    match q
    case GetTasks => Request(GET, "/", NoBody)
    case GetTaskById(id) => Request(GET, "/" + id, NoBody)
  }

  /** The task id a mutation addresses; an add has none yet. */
  function Target(m: Mutation): Option<string>
  {
    match m
    case AddTask(_) => None
    case UpdateTask(id, _) => Some(id)
    case DeleteTask(id) => Some(id)
  }

  function MutationRequest(m: Mutation): (r: Request)
    ensures Target(m).Some? ==> r.path == "/" + Target(m).value
    ensures Target(m).None? ==> r.path == "/" && r.verb == POST
    ensures m.AddTask? <==> r.body.NewTaskBody?
    ensures m.DeleteTask? <==> r.verb == DELETE
    ensures r.body.NewTaskBody? ==> r.body.task == m.body
    ensures r.body.PatchBody? ==> m.UpdateTask? && r.body.patch == m.data
    ensures m.UpdateTask? ==> r.verb == PUT && r.body == PatchBody(m.data)
  {
    match m
    case AddTask(body) => Request(POST, "/", NewTaskBody(body))
    case UpdateTask(id, data) => Request(PUT, "/" + id, PatchBody(data))
    case DeleteTask(id) => Request(DELETE, "/" + id, NoBody)
  }

  // ---------------------------------------------------------------------
  // Cache tags

  /** The two tag types: the whole collection, and one task by id. */
  datatype Tag = TasksTag | TaskTag(id: string)

  /** The tags a query's cached result is filed under. */
  function Provides(q: Query): (r: set<Tag>)
    ensures |r| == 1
    ensures q.GetTasks? <==> TasksTag in r
    ensures forall id :: TaskTag(id) in r <==> q == GetTaskById(id)
  {
    match q
    case GetTasks => {TasksTag}
    case GetTaskById(id) => {TaskTag(id)}
  }

  /** The tags a mutation marks stale: always the collection, plus the
      addressed task when there is one. */
  function Invalidates(m: Mutation): (r: set<Tag>)
    ensures TasksTag in r
    ensures forall id :: TaskTag(id) in r <==> Target(m) == Some(id)
    ensures |r| == if m.AddTask? then 1 else 2
  {
    match m
    case AddTask(_) => {TasksTag}
    case UpdateTask(id, _) => {TasksTag, TaskTag(id)}
    case DeleteTask(id) => {TasksTag, TaskTag(id)}
  }

  /** A by-id query's URL and the tag it provides name the same task. */
  lemma QueryPathAndTagAgree(q: Query, id: string)
    requires TaskTag(id) in Provides(q)
    ensures QueryRequest(q).path == "/" + id
  {
  }

  /** A by-id mutation's URL and the task tag it invalidates name the same task. */
  lemma PathAndTagAgree(m: Mutation, id: string)
    requires TaskTag(id) in Invalidates(m)
    ensures MutationRequest(m).path == "/" + id
  {
  }
}
