/**
 * The server's request handlers (src/app/server/controller/todo.ts): which
 * status and body each handler answers, given the parsed request and what the
 * repository returned or threw. The handlers that change the store are
 * methods over a `TodoStore`; the mapping from repository outcome to response
 * is a function of its own.
 */
module ServerController {
  import opened Wrappers
  import opened TodoModel
  import opened Json
  import opened ServerRepository

  /** `Number(p)` of a query parameter, in the three cases `&&` and `isNaN` tell apart. */
  datatype NumberClass = Zero | NaN | NonZero

  /** `0` and `NaN` are the falsy numbers. */
  predicate Truthy(n: NumberClass) {
    n == NonZero
  }

  predicate IsNaN(n: NumberClass) {
    n == NaN
  }

  /** A JSON response body. */
  datatype Body =
    | PageBody(output: GetOutput)         // the repository's `{todos, total, pages}`
    | ErrorMessage(message: string)       // `{error: "<message>"}`
    | SchemaError                         // `{error: <validation error>}`; its contents are not modelled
    | TodoBody(todo: Todo)                // `{todo}`
    | TodoList(todos: seq<Todo>)          // `{todos}`
    | RawError(thrown: RepoError)         // `{error: <the caught exception>}`
    | InternalError(message: string)      // `{error: {message}}`
    | StatusBody(status: int)             // `{status}`

  datatype Response = Response(status: int, body: Body)

  // ------------------------------------------------------------------ get

  /** The branches of `get` once the query is parsed and the repository has answered. */
  function GetResponse(page: NumberClass, limit: NumberClass, output: GetOutput): Response {
    if Truthy(page) && IsNaN(page) then Response(400, ErrorMessage("page is required"))
    else if Truthy(limit) && IsNaN(limit) then Response(400, ErrorMessage("limit is required"))
    else Response(200, PageBody(output))
  }

  /** `x && isNaN(x)` holds of no number, so neither 400 branch of `get` can be taken. */
  lemma GetNeverRejects(page: NumberClass, limit: NumberClass, output: GetOutput)
    ensures !(Truthy(page) && IsNaN(page))
    ensures GetResponse(page, limit, output) == Response(200, PageBody(output))
  {
  }

  /**
   * `get(req)`: whatever the query says, 200 with the first page of 5 records,
   * because the repository is called without the parsed parameters. The store
   * is only read (the handler reads it after the checks; neither can fail).
   */
  method Get(store: TodoStore, page: NumberClass, limit: NumberClass) returns (r: Response)
    ensures r == Response(200, PageBody(Paginate(store.allTodos, PageParams(1, 5))))
  {
    var output := store.Get(None);
    r := GetResponse(page, limit, output);
  }

  // ----------------------------------------------------------------- post

  /** `post()`: always 200 with an empty list. */
  method Post() returns (r: Response)
    ensures r.status == 200 && r.body == TodoList([])
  {
    r := Response(200, TodoList([]));
  }

  // --------------------------------------------------------------- create

  /** `TodoCreateBodySchema.safeParse(body)`: an object whose `content` is a string. */
  function ParseCreateBody(body: Value): Option<string> {
    if body.Object? && "content" in body.fields && body.fields["content"].Str?
    then Some(body.fields["content"].s)
    else None
  }

  /**
   * `create(body)`: 400 and no change when the body fails the schema; otherwise
   * 201 with the appended record. The fresh id and the timestamp are parameters.
   */
  method Create(store: TodoStore, body: Value, id: string, date: string) returns (r: Response)
    requires store.Valid() && !HasId(store.allTodos, id)
    modifies store
    ensures store.Valid()
    ensures ParseCreateBody(body).None? ==>
      r == Response(400, SchemaError) && store.allTodos == old(store.allTodos)
    ensures ParseCreateBody(body).Some? ==>
      var todo := Todo(id, ParseCreateBody(body).value, date, false);
      r == Response(201, TodoBody(todo)) && store.allTodos == old(store.allTodos) + [todo]
  {
    var parsed := ParseCreateBody(body);
    if parsed.None? {
      return Response(400, SchemaError);
    }
    var todo := store.CreateByContent(parsed.value, id, date);
    r := Response(201, TodoBody(todo));
  }

  // --------------------------------------------------------------- toggle

  /** The `try`/`catch` of `toggleDone`: 200 on success, the error's own status for `HttpNotFoundError`, 404 otherwise. */
  function ToggleResponse(outcome: Result<Todo, RepoError>): Response {
    match outcome
    case Ok(todo) => Response(200, TodoBody(todo))
    case Err(NotFoundError(message, status)) => Response(status, ErrorMessage(message))
    case Err(e) => Response(404, RawError(e))
  }

  /**
   * Against the repository's toggle, an unknown id always gets 404 with the
   * plain error as body (the repository never throws `HttpNotFoundError` here),
   * and a known id gets 200 with the flipped record.
   */
  lemma ToggleResponses(s: seq<Todo>, id: string)
    ensures !HasId(s, id) ==>
      ToggleResponse(Toggle(s, id).result) == Response(404, RawError(PlainError(NotFoundMessage(id))))
    ensures HasId(s, id) ==>
      ToggleResponse(Toggle(s, id).result) == Response(200, TodoBody(Flip(s[FirstIndexOf(s, id).value])))
  {
  }

  /** `toggleDone(req, id)`. */
  method ToggleDone(store: TodoStore, id: string) returns (r: Response)
    requires store.Valid()
    modifies store
    ensures store.Valid()
    ensures store.allTodos == Toggle(old(store.allTodos), id).store
    ensures r == ToggleResponse(Toggle(old(store.allTodos), id).result)
  {
    var outcome := store.ToggleDone(id);
    r := ToggleResponse(outcome);
  }

  // --------------------------------------------------------------- delete

  /**
   * `QueryParamsSchema.safeParse(query)` with the schema `{id: string().uuid().nonempty()}`:
   * the query must be an object whose `id` is a non-empty uuid string.
   * Which strings are uuids is the parameter `isUuid`.
   */
  function ParseIdQuery(query: Value, isUuid: string -> bool): Option<string> {
    if query.Object? && "id" in query.fields && query.fields["id"].Str?
       && isUuid(query.fields["id"].s) && query.fields["id"].s != ""
    then Some(query.fields["id"].s)
    else None
  }

  /** The `try`/`catch` of `deleteById`: `{status: 204}` (sent as 200), the not-found status, or 500. */
  function DeleteResponse(outcome: Result<Todo, RepoError>): Response {
    match outcome
    case Ok(_) => Response(200, StatusBody(204))
    case Err(NotFoundError(message, status)) => Response(status, ErrorMessage(message))
    case Err(e) => Response(500, InternalError("Internal server error: " + e.message))
  }

  /** Against the repository's delete: an unknown id gets 404, a known one the success body, and never 500. */
  lemma DeleteResponses(s: seq<Todo>, id: string)
    ensures !HasId(s, id) ==>
      DeleteResponse(Delete(s, id).result) == Response(404, ErrorMessage(NotFoundMessage(id)))
    ensures HasId(s, id) ==> DeleteResponse(Delete(s, id).result) == Response(200, StatusBody(204))
    ensures DeleteResponse(Delete(s, id).result).status != 500
  {
  }

  /**
   * `deleteById(query)` as written: the query is validated against the object
   * schema, and only a query that passes reaches the repository.
   */
  method DeleteById(store: TodoStore, query: Value, isUuid: string -> bool) returns (r: Response)
    requires store.Valid()
    modifies store
    ensures store.Valid()
    ensures ParseIdQuery(query, isUuid).None? ==>
      r == Response(400, SchemaError) && store.allTodos == old(store.allTodos)
    ensures ParseIdQuery(query, isUuid).Some? ==>
      var o := Delete(old(store.allTodos), ParseIdQuery(query, isUuid).value);
      store.allTodos == o.store && r == DeleteResponse(o.result)
  {
    var parsed := ParseIdQuery(query, isUuid);
    if parsed.None? {
      return Response(400, SchemaError);
    }
    var outcome := store.DeleteById(parsed.value);
    r := DeleteResponse(outcome);
  }

  /**
   * The route hands `deleteById` the bare id string, which no object schema
   * accepts: every delete request is answered 400 and nothing is removed.
   */
  lemma DeleteRejectsBareId(id: string, isUuid: string -> bool)
    ensures ParseIdQuery(Str(id), isUuid) == None
  {
  }

  /** The validation `deleteById` evidently means: the id itself is a non-empty uuid string. */
  function ParseId(id: string, isUuid: string -> bool): Option<string> {
    if isUuid(id) && id != "" then Some(id) else None
  }

  /**
   * `deleteById(id)` with the id validated directly: an invalid id gets 400 and
   * no change; a valid unknown id 404; a valid known id is removed and answered
   * with the success body.
   */
  method DeleteByIdIntended(store: TodoStore, id: string, isUuid: string -> bool) returns (r: Response)
    requires store.Valid()
    modifies store
    ensures store.Valid()
    ensures ParseId(id, isUuid).None? ==>
      r == Response(400, SchemaError) && store.allTodos == old(store.allTodos)
    ensures ParseId(id, isUuid).Some? && !HasId(old(store.allTodos), id) ==>
      r == Response(404, ErrorMessage(NotFoundMessage(id))) && store.allTodos == old(store.allTodos)
    ensures ParseId(id, isUuid).Some? && HasId(old(store.allTodos), id) ==>
      r == Response(200, StatusBody(204))
      && store.allTodos == Delete(old(store.allTodos), id).store
      && !HasId(store.allTodos, id)
      && |store.allTodos| == |old(store.allTodos)| - 1
  {
    DeleteResponses(store.allTodos, id);
    DeleteSpec(store.allTodos, id);
    DeleteRemovesId(store.allTodos, id);
    var parsed := ParseId(id, isUuid);
    if parsed.None? {
      return Response(400, SchemaError);
    }
    var outcome := store.DeleteById(parsed.value);
    r := DeleteResponse(outcome);
  }
}
