# simple-todo in Dafny

A model of the todo-list application's list logic: the server's in-memory store of todo
records and its page arithmetic, the server's request handlers and their choice of status and
body, the browser's controller (request defaults, non-empty guards, case-insensitive content
filter), the browser's decoder for the list response, and the home page's state transitions.

Modules, one per file of the application:

| module | file | models |
|---|---|---|
| `TodoModel` | `todo_model.dfy` | the todo record; finding a record by id; reversal; subsequences |
| `ServerRepository` | `server_repository.dfy` | `src/app/server/repository/todo.ts`: class `TodoStore` over the store, specified by `Paginate`, `Toggle`, `Delete` |
| `ServerController` | `server_controller.dfy` | `src/app/server/controller/todo.ts`: responses of `get`, `post`, `create`, `toggleDone`, `deleteById` |
| `ClientController` | `client_controller.dfy` | `src/app/ui/controller/todo.ts` |
| `ClientRepository` | `client_repository.dfy` | `parseTodosFromServer` and the request path of `get` in `src/app/ui/repository/todo.ts` |
| `HomePage` | `home_page.dfy` | the state of `src/app/page.tsx`, class `Home` |
| `Json`, `Wrappers` | `json.dfy`, `wrappers.dfy` | untyped JavaScript values; `Option` and `Result` |

The store and the page are classes whose methods change their fields. Each method is proved
against a function on values (`Toggle`, `Delete`, `Paginate`, `FlipAllWithId`, ...), and the
lemmas state what the application promises about those functions. Ids and timestamps
(`uuid()`, `new Date()`) are parameters. A new id must not already be in the store. The
uuid check of the validators is a parameter `isUuid`. Number parsing of a query parameter is
a three-way input (`Zero`, `NaN`, `NonZero`).

Behaviour of the code a reader may not expect:

- A successful delete answers HTTP 200 with the body `{status: 204}`. The status is never
  passed to `NextResponse.json`.
- The 400 answers of the server's `get` never happen, and its page and limit are ignored: it
  always answers page 1 of 5.
- The server's `deleteById` answers 400 to every request (see Findings), so no unknown uuid
  reaches the 404 branch.
- The toggle of an unknown id answers 404 with the thrown plain `Error` as its body.
- `get` cuts its window at the store's end (`slice`), so a page past the end is empty.
- Because the server's `get` ignores its page and limit, "load more" asks for page 2 but
  receives page 1 again and appends it. Records past the fifth are never loaded: with 7
  records, one click shows records 1 to 5 twice and then hides the button.

The functions below model the source's operations on values. The methods of `TodoStore` and
`Home`, and the lemmas in the table under "## Model", state their properties.

| function | source | models |
|---|---|---|
| `ServerRepository.Paginate` | src/app/server/repository/todo.ts:37-54 | the window and counts of `get` |
| `ServerRepository.Toggle` | src/app/server/repository/todo.ts:69-79 | `toggleDone`: the new store, and the record or the `Error` thrown |
| `ServerRepository.Delete` | src/app/server/repository/todo.ts:81-91 | `deleteById`: the new store, and the record or the `HttpNotFoundError` thrown |
| `ServerController.GetResponse` | src/app/server/controller/todo.ts:13-25 | the guards and the answer of `get` |
| `ServerController.ParseCreateBody` | src/app/server/controller/todo.ts:32-39 | the `{content: string}` schema of `create` |
| `ServerController.ToggleResponse` | src/app/server/controller/todo.ts:49-60 | the status and body of `toggleDone` for each repository outcome |
| `ServerController.ParseIdQuery` | src/app/server/controller/todo.ts:64-72 | the `{id}` object schema applied to the id |
| `ServerController.DeleteResponse` | src/app/server/controller/todo.ts:76-94 | the status and body of `deleteById` for each repository outcome |
| `ClientRepository.RequestPath` | src/app/ui/repository/todo.ts:19 | the URL `get` fetches |
| `ClientRepository.ParseTodosFromServer` | src/app/ui/repository/todo.ts:35-67 | `parseTodosFromServer` |
| `HomePage.FlipAllWithId` | src/app/page.tsx:78-89 | the `setTodos` update of `handleToggle` |
| `HomePage.RemoveAllWithId` | src/app/page.tsx:94-96 | the `setTodos` update of `handleDeleteById` |
| `HomePage.Home.HasMorePages` | src/app/page.tsx:22 | `hasMorePages` |

## Model

| member | source | states |
|---|---|---|
| `TodoModel.FirstIndexOf` | src/app/server/repository/todo.ts:82 | the index returned holds the id and no earlier record does; none exactly when no record has the id |
| `TodoModel.Reverse` | src/app/server/repository/todo.ts:4-17 | the reversed list has the same length, element k being element n-1-k of the input |
| `ServerRepository.CeilDiv` | src/app/server/repository/todo.ts:47 | the result q is the ceiling of n/d: d*(q-1) < n <= d*q |
| `ServerRepository.PaginateWindow` | src/app/server/repository/todo.ts:37-53 | a page holds at most `limit` records, exactly the store's records from (page-1)*limit on, in store order; `total` is the store size and `pages` the ceiling of total/limit |
| `ServerRepository.PaginateEmptyIffBeyondRange` | src/app/server/repository/todo.ts:43-53 | a page is empty if and only if its number exceeds `pages`; `total` and `pages` do not depend on the page asked for |
| `ServerRepository.PagesCoverStore` | src/app/server/repository/todo.ts:43-47 | concatenating pages 1 to `pages` in order gives back the whole store |
| `ServerRepository.ToggleSpec` | src/app/server/repository/todo.ts:69-79 | an absent id throws a plain error "Todo id: <id> not found" and changes nothing; a present id flips `done` of its first record only, keeps its other fields, the length and every other record, and returns that record |
| `ServerRepository.ToggleTwice` | src/app/server/repository/todo.ts:69-79 | toggling the same id twice restores the store |
| `ServerRepository.ToggleKeepsIds` | src/app/server/repository/todo.ts:76 | toggling keeps every id in place, so unique ids stay unique |
| `ServerRepository.DeleteSpec` | src/app/server/repository/todo.ts:81-91 | an absent id throws `HttpNotFoundError` (404) and changes nothing; a present id removes exactly its first record and returns it; the length drops by one and the others keep their order |
| `ServerRepository.DeleteRemovesId` | src/app/server/repository/todo.ts:81-91 | with unique ids, after a delete no record carries the id, ids stay unique, and the kept records plus the returned one are the old store as a multiset |
| `ServerRepository.TodoStore.constructor` | src/app/server/repository/todo.ts:4-17 | the seed holds two not-done records, "Todo 2" before "Todo 1" |
| `ServerRepository.TodoStore.Get` | src/app/server/repository/todo.ts:37-54 | answers `Paginate` of the store with the given parameters or page 1, limit 5 by default, and modifies nothing |
| `ServerRepository.TodoStore.CreateByContent` | src/app/server/repository/todo.ts:56-67 | appends exactly one record with the given content and `done` false at the end, leaving every earlier record as it was, and returns it |
| `ServerRepository.TodoStore.ToggleDone` | src/app/server/repository/todo.ts:69-79 | the new store and the result are those of `Toggle` on the old store |
| `ServerRepository.TodoStore.DeleteById` | src/app/server/repository/todo.ts:81-91 | the new store and the result are those of `Delete` on the old store |
| `ServerController.GetNeverRejects` | src/app/server/controller/todo.ts:13-22 | `x && isNaN(x)` is false for every number, so `get` always answers 200 with the repository's output |
| `ServerController.Get` | src/app/server/controller/todo.ts:6-26 | whatever the query, 200 with page 1 of 5 records of the store |
| `ServerController.Post` | src/app/server/controller/todo.ts:28-30 | always 200 with `{todos: []}` |
| `ServerController.Create` | src/app/server/controller/todo.ts:32-46 | a body failing the `{content: string}` schema gets 400 and no change; otherwise 201 with the appended record |
| `ServerController.ToggleResponses` | src/app/server/controller/todo.ts:48-60 | against the repository's toggle, an unknown id always gets 404 with the plain error as body, and a known id 200 with the flipped record |
| `ServerController.ToggleDone` | src/app/server/controller/todo.ts:48-61 | the store is toggled as the repository does and the response is the mapped outcome |
| `ServerController.DeleteResponses` | src/app/server/controller/todo.ts:76-94 | against the repository's delete, an unknown id gets 404 with the not-found message, a known id the `{status: 204}` body, and the 500 branch is never taken |
| `ServerController.DeleteById` | src/app/server/controller/todo.ts:63-95 | a query failing the object schema gets 400 and no change; a passing query deletes as the repository does and answers the mapped outcome |
| `ServerController.DeleteRejectsBareId` | src/app/server/controller/todo.ts:64-72 | the bare id string never passes the `{id}` object schema, so every delete is answered 400 |
| `ServerController.DeleteByIdIntended` | src/app/server/controller/todo.ts:63-95 | with the id validated itself: an invalid id gets 400, an unknown id 404, and a known id is removed with the success body |
| `ClientController.Get` | src/app/ui/controller/todo.ts:14-16 | the page asked for is the given one or 1, the limit the given one or 3 |
| `ClientController.GetDefaultPath` | src/app/ui/repository/todo.ts:19 | a call with no arguments fetches "/api/todos?page=1&limit=3", and two requests share a path only when they are equal |
| `ClientController.Create` | src/app/ui/controller/todo.ts:24-32 | the content reaches the repository exactly when it is present and non-empty, and then unchanged |
| `ClientController.ToggleDone` | src/app/ui/controller/todo.ts:34-46 | the id reaches the repository exactly when it is non-empty, and then unchanged |
| `ClientController.DeleteById` | src/app/ui/controller/todo.ts:48-60 | the id reaches the repository exactly when it is non-empty, and then unchanged |
| `ClientController.FilterTodosByContent` | src/app/ui/controller/todo.ts:18-22 | a record is kept if and only if its lower-cased content contains the lower-cased search; nothing else is added |
| `ClientController.FilterIsSubsequence` | src/app/ui/controller/todo.ts:18-22 | the result is a subsequence of the input: the kept records keep their relative order |
| `ClientController.FilterEmptySearch` | src/app/ui/controller/todo.ts:18-22 | the empty search returns the whole input |
| `ClientController.FilterIdempotent` | src/app/ui/controller/todo.ts:18-22 | filtering the result again with the same search changes nothing |
| `ClientController.FilterCaseInsensitive` | src/app/ui/controller/todo.ts:19-21 | searches that lower-case alike select the same records |
| `ClientController.FilterAppend` | src/app/ui/controller/todo.ts:18-22 | filtering a concatenation is the concatenation of the filtered parts |
| `ClientRepository.RequestPathInjective` | src/app/ui/repository/todo.ts:19 | the path carries exactly the page and limit it was built from |
| `ClientRepository.ParseTodoList` | src/app/ui/repository/todo.ts:46-64 | succeeds exactly when every element is a non-null object; then one record per element in order, fields copied as received; otherwise "Invalid todo from api" |
| `ClientRepository.ParseTodosFromServerSpec` | src/app/ui/repository/todo.ts:35-67 | no result exactly when the body is null, not an object, lacks `todos`/`total`/`pages` or has a non-array `todos`; a throw exactly when some element is null or not an object |
| `ClientRepository.ParseTodosFromServerCopies` | src/app/ui/repository/todo.ts:43-64 | on success `total` and `pages` come from the body and each record's `id`, `content`, `date`, `done` are its element's, unchecked |
| `ClientRepository.DecodeEncodedPage` | src/app/ui/repository/todo.ts:30-67 | decoding the body the server sends for a page gives back its counts and every record in order |
| `HomePage.FlipAllWithIdSpec` | src/app/page.tsx:78-89 | the toggle update keeps the length and flips `done` of exactly the records with the id |
| `HomePage.FlipAllWithIdTwice` | src/app/page.tsx:78-89 | toggling the same id twice on the page restores the list |
| `HomePage.RemoveAllWithIdSpec` | src/app/page.tsx:94-96 | the delete update leaves no record with the id, keeps every other record exactly as many times as it occurred, and keeps their order |
| `HomePage.OptimisticUpdatesMatchServer` | src/app/page.tsx:76-97 | with unique ids, the page's toggle and delete updates give the same list as the server's toggle and delete |
| `HomePage.Home.constructor` | src/app/page.tsx:12-18 | loading, page 1 of 1, empty list, empty search and new-todo box, first load not completed |
| `HomePage.Home.HomeTodos` | src/app/page.tsx:20 | a record is shown exactly when it is loaded and matches the search; the shown records keep their loaded order |
| `HomePage.Home.HasNoTodos` | src/app/page.tsx:20-21 | holds exactly when nothing is loading and no loaded record matches the search |
| `HomePage.MorePagesIffRecordsRemain` | src/app/page.tsx:22 | with `totalPages` equal to `Math.ceil(total / limit)`, the "load more" button shows exactly when total > page * limit |
| `HomePage.Home.Mount` | src/app/page.tsx:24-28 | issues the first load, page 1 with limit 3, exactly when it has not completed |
| `HomePage.Home.LoadTodosSettled` | src/app/page.tsx:30-41 | the fetched records replace the list and `pages` becomes the page count; loading ends, on failure too |
| `HomePage.Home.LoadMoreClicked` | src/app/page.tsx:192-201 | only while page < totalPages: the page advances by exactly one and that page is requested with limit 3 |
| `HomePage.Home.LoadMoreSettled` | src/app/page.tsx:43-54 | the fetched records are appended after the list, so the displayed list grows by the matching fetched records; loading ends |
| `HomePage.Home.SearchChanged` | src/app/page.tsx:56-59 | only the search changes |
| `HomePage.Home.NewTodoChanged` | src/app/page.tsx:61-64 | only the new-todo text changes |
| `HomePage.Home.CreateSubmitted` | src/app/page.tsx:66-74 | the typed content goes through the client controller's create guard and the box is cleared |
| `HomePage.Home.CreateResolved` | src/app/page.tsx:69-71 | the created record is put first in the list |
| `HomePage.Home.Toggle` | src/app/page.tsx:76-90 | sends the toggle and flips `done` of every loaded record with the id, all else unchanged |
| `HomePage.Home.DeleteById` | src/app/page.tsx:92-97 | sends the delete and drops every loaded record with the id, keeping the others in order |

## Findings

| source | as written | input that shows it | evidently intended | confidence | as-written member | corrected member |
|---|---|---|---|---|---|---|
| src/app/server/controller/todo.ts:64-72 | the object schema `{id: string().uuid().nonempty()}` is applied to the bare id string, which an object schema never accepts | any `DELETE /api/todos/<id>`, including the id of a seeded record | validate the id string itself, then delete: 404 for an unknown id, success for a known one | high; not executed | `ServerController.DeleteRejectsBareId` | `ServerController.DeleteByIdIntended` |

## Left out

- Network I/O: the `fetch` calls of the client repository are not modelled. Nor are its `createByContent`, `toggleDone` and `deleteById`, which only fetch and check the answer against the todo schema. Requests are returned as values and answers arrive as events of `Home`.
- `NextResponse` construction and JSON serialisation: responses are status/body values. The thrown `Error` in a toggle body is kept as a value, not as the `{}` it serialises to.
- Validation: the schema library's errors are the opaque `SchemaError` or `Rejected`. The uuid test is the parameter `isUuid`. The date transform of the todo schema is not modelled.
- `ServerController.Create`: the `{content: string}` schema is modelled as plain object and string checks on `Json.Value`, not by the validation library.
- `uuid()` and `new Date().toISOString()` are parameters. The freshness of a new id is a precondition.
- `ServerRepository.TodoStore.Get`: requires page and limit both at least 1. `slice` with negative bounds and `Math.ceil` with a zero or negative limit are not modelled. The application calls `get` only with its defaults.
- `ClientRepository.ParseTodosFromServerCopies`: `total` and `pages` are kept as received. The `Number(...)` coercion is not modelled.
- Numbers are integers. `toLowerCase` is modelled on ASCII letters only. The server's `Number(p)` is a three-way input: zero, NaN or another number.
- The HTTP routing in src/app/api/ is not part of this model. That includes the duplicate PUT mapping to delete.
- src/app/server/infra/errors is not part of this model. `HttpNotFoundError` is taken to carry status 404.
- Asynchrony: the order of answers, concurrent clicks and requests, and the `try`/`catch` around returned promises in the client controller are not modelled. A failed create, toggle or delete has no effect on the page, and the model has none either.
- Rendering: the JSX, effects other than the mount load, and the literal "todo.content" text shown for done records are not modelled.
- The end-to-end browser test in cypress/ is not modelled.
