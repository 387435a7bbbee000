/**
 * The server's in-memory store of todos (src/app/server/repository/todo.ts):
 * a process-wide list seeded with two records and changed in place by
 * create, toggle and delete, plus the page arithmetic of `get`.
 *
 * The operations are specified by the functions `Paginate`, `Toggle` and
 * `Delete` on the list value; the class `TodoStore` holds the list and its
 * methods are proved against those functions.
 */
module ServerRepository {
  import opened Wrappers
  import opened TodoModel

  /** What the repository throws: `HttpNotFoundError` (carrying a status) or a plain `Error`. */
  datatype RepoError = NotFoundError(message: string, status: int) | PlainError(message: string)

  /** The status an `HttpNotFoundError` carries. */
  const NotFoundStatus := 404

  /** The message of both not-found errors: "Todo id: <id> not found". */
  function NotFoundMessage(id: string): string {
    "Todo id: " + id + " not found"
  }

  // ---------------------------------------------------------------- paging

  datatype PageParams = PageParams(page: int, limit: int)

  /** The parameters `get` uses when it is called without an argument. */
  const DefaultParams := PageParams(1, 5)

  /** The output of `get`: one page of records, the store's size and the number of pages. */
  datatype GetOutput = GetOutput(todos: seq<Todo>, total: int, pages: int)

  /** Pages are numbered from 1 and hold at least one record. */
  predicate ValidParams(p: PageParams) {
    p.page >= 1 && p.limit >= 1
  }

  /** The argument `get` destructures: the one given, or the default object. */
  function Resolve(params: Option<PageParams>): PageParams {
    params.GetOr(DefaultParams)
  }

  function Min(a: int, b: int): int {
    if a <= b then a else b
  }

  /** `Array.prototype.slice(start, end)` for `0 <= start <= end`: both bounds are cut at the length. */
  function Slice(s: seq<Todo>, start: nat, end: nat): seq<Todo>
    requires start <= end
  {
    s[Min(start, |s|)..Min(end, |s|)]
  }

  /** `q` is the ceiling of `n / d`. */
  predicate IsCeiling(q: int, n: int, d: int) {
    d * (q - 1) < n <= d * q
  }

  /** `Math.ceil(n / d)` on a non-negative integer and a positive divisor. */
  function CeilDiv(n: nat, d: int): (q: nat)
    requires d >= 1
    ensures IsCeiling(q, n, d)
  {
    var q := (n + d - 1) / d;
    var r := (n + d - 1) % d;
    assert n + d - 1 == d * q + r;
    q
  }

  lemma StartBeforeEnd(p: PageParams)
    requires ValidParams(p)
    ensures 0 <= (p.page - 1) * p.limit <= p.page * p.limit
    ensures p.page * p.limit - (p.page - 1) * p.limit == p.limit
  {
  }

  /** What `get(p)` answers for the list `s`. */
  function Paginate(s: seq<Todo>, p: PageParams): GetOutput
    requires ValidParams(p)
  {
    StartBeforeEnd(p);
    GetOutput(Slice(s, (p.page - 1) * p.limit, p.page * p.limit), |s|, CeilDiv(|s|, p.limit))
  }

  /**
   * A page is the window of at most `limit` records starting at `(page - 1) * limit`,
   * in store order; `total` is the store's size and `pages` the ceiling of `total / limit`.
   */
  lemma PaginateWindow(s: seq<Todo>, p: PageParams)
    requires ValidParams(p)
    ensures var out := Paginate(s, p);
      && out.total == |s|
      && IsCeiling(out.pages, |s|, p.limit)
      && |out.todos| <= p.limit
      && |out.todos| == Min(p.limit, if |s| > (p.page - 1) * p.limit then |s| - (p.page - 1) * p.limit else 0)
      && forall k :: 0 <= k < |out.todos| ==> out.todos[k] == s[(p.page - 1) * p.limit + k]
  {
    StartBeforeEnd(p);
  }

  /** A page is empty exactly when its number is past the page count; total and count do not depend on the page. */
  lemma PaginateEmptyIffBeyondRange(s: seq<Todo>, p: PageParams, q: PageParams)
    requires ValidParams(p) && ValidParams(q) && p.limit == q.limit
    ensures Paginate(s, p).todos == [] <==> p.page > Paginate(s, p).pages
    ensures Paginate(s, p).total == Paginate(s, q).total
    ensures Paginate(s, p).pages == Paginate(s, q).pages
  {
    var n, l, pages := |s|, p.limit, Paginate(s, p).pages;
    StartBeforeEnd(p);
    if p.page > pages {
      assert (p.page - 1) * l >= pages * l by {
        MulMonotone(pages, p.page - 1, l);
      }
    } else {
      assert (p.page - 1) * l <= (pages - 1) * l by {
        MulMonotone(p.page - 1, pages - 1, l);
      }
    }
  }

  lemma MulMonotone(a: int, b: int, l: int)
    requires a <= b && l >= 0
    ensures a * l <= b * l
  {
  }

  /** Pages 1 to `n` of size `limit`, concatenated in order. */
  function PagesUpTo(s: seq<Todo>, limit: int, n: nat): seq<Todo>
    requires limit >= 1
  {
    if n == 0 then [] else PagesUpTo(s, limit, n - 1) + Paginate(s, PageParams(n, limit)).todos
  }

  lemma {:induction false} PagesUpToIsPrefix(s: seq<Todo>, limit: int, n: nat)
    requires limit >= 1
    ensures n * limit >= 0
    ensures PagesUpTo(s, limit, n) == s[..Min(n * limit, |s|)]
  {
    if n > 0 {
      PagesUpToIsPrefix(s, limit, n - 1);
      var p := PageParams(n, limit);
      StartBeforeEnd(p);
      assert (n - 1) * limit <= n * limit;
      var a, b := Min((n - 1) * limit, |s|), Min(n * limit, |s|);
      assert s[..a] + s[a..b] == s[..b];
    }
  }

  /** Reading every page in turn, from the first to the last, yields the whole store in order. */
  lemma PagesCoverStore(s: seq<Todo>, limit: int)
    requires limit >= 1
    ensures PagesUpTo(s, limit, Paginate(s, PageParams(1, limit)).pages) == s
  {
    var pages := Paginate(s, PageParams(1, limit)).pages;
    PagesUpToIsPrefix(s, limit, pages);
    assert s[..|s|] == s;
  }

  // -------------------------------------------------- toggle and delete

  /** A store after an operation, with what the operation returned or threw. */
  datatype Outcome = Outcome(store: seq<Todo>, result: Result<Todo, RepoError>)

  /** `toggleDone(id)`: flip `done` of the first record with `id`, or throw a plain `Error`. */
  function Toggle(s: seq<Todo>, id: string): Outcome {
    match FirstIndexOf(s, id)
    case None => Outcome(s, Err(PlainError(NotFoundMessage(id))))
    case Some(i) => Outcome(s[i := Flip(s[i])], Ok(Flip(s[i])))
  }

  /** `deleteById(id)`: splice out the first record with `id` and return it, or throw `HttpNotFoundError`. */
  function Delete(s: seq<Todo>, id: string): Outcome {
    match FirstIndexOf(s, id)
    case None => Outcome(s, Err(NotFoundError(NotFoundMessage(id), NotFoundStatus)))
    case Some(i) => Outcome(s[..i] + s[i + 1..], Ok(s[i]))
  }

  /**
   * Toggling an absent id throws a plain error and changes nothing; toggling a
   * present id flips `done` of its first record only, keeps that record's other
   * fields, the order and the length, and returns the updated record.
   */
  lemma ToggleSpec(s: seq<Todo>, id: string)
    ensures Toggle(s, id).result.Err? <==> !HasId(s, id)
    ensures !HasId(s, id) ==> Toggle(s, id) == Outcome(s, Err(PlainError(NotFoundMessage(id))))
    ensures HasId(s, id) ==>
      var i, t := FirstIndexOf(s, id).value, Toggle(s, id).store;
      && |t| == |s|
      && t[i].id == s[i].id && t[i].content == s[i].content && t[i].date == s[i].date
      && t[i].done == !s[i].done
      && Toggle(s, id).result == Ok(t[i])
      && forall k :: 0 <= k < |s| && k != i ==> t[k] == s[k]
  {
  }

  /** Toggling the same id twice restores the store. */
  lemma ToggleTwice(s: seq<Todo>, id: string)
    ensures Toggle(Toggle(s, id).store, id).store == s
  {
    var s' := Toggle(s, id).store;
    match FirstIndexOf(s, id)
    case None =>
    case Some(i) =>
      FirstIndexOfSameIds(s, s', id);
      assert s'[i := Flip(s'[i])] == s;
  }

  /** Toggling keeps every id where it was, so it keeps ids unique. */
  lemma ToggleKeepsIds(s: seq<Todo>, id: string)
    ensures |Toggle(s, id).store| == |s|
    ensures forall k :: 0 <= k < |s| ==> Toggle(s, id).store[k].id == s[k].id
    ensures UniqueIds(s) ==> UniqueIds(Toggle(s, id).store)
  {
  }

  /**
   * Deleting an absent id throws `HttpNotFoundError` and changes nothing;
   * deleting a present id removes exactly its first record, returns it, and
   * keeps the other records in their order.
   */
  lemma DeleteSpec(s: seq<Todo>, id: string)
    ensures Delete(s, id).result.Err? <==> !HasId(s, id)
    ensures !HasId(s, id) ==>
      Delete(s, id) == Outcome(s, Err(NotFoundError(NotFoundMessage(id), NotFoundStatus)))
    ensures HasId(s, id) ==>
      var i, t := FirstIndexOf(s, id).value, Delete(s, id).store;
      && Delete(s, id).result == Ok(s[i])
      && |t| == |s| - 1
      && (forall k :: 0 <= k < i ==> t[k] == s[k])
      && (forall k :: i < k < |s| ==> t[k - 1] == s[k])
  {
  }

  /** With unique ids, a delete leaves no record with that id and keeps ids unique; the records removed and kept make up the store. */
  lemma DeleteRemovesId(s: seq<Todo>, id: string)
    requires UniqueIds(s)
    ensures !HasId(Delete(s, id).store, id)
    ensures UniqueIds(Delete(s, id).store)
    ensures Delete(s, id).result.Ok? ==>
      multiset(Delete(s, id).store) + multiset{Delete(s, id).result.value} == multiset(s)
  {
    match FirstIndexOf(s, id)
    case None =>
    case Some(i) =>
      var r := s[..i] + s[i + 1..];
      UniqueFirstIndex(s, id, i);
      forall k | 0 <= k < |r|
        ensures r[k] == s[if k < i then k else k + 1]
      {
      }
      assert s == s[..i] + [s[i]] + s[i + 1..];
  }

  // ------------------------------------------------------------ the store

  /** The module-level array `allTodos` and the functions that change it. */
  class TodoStore {
    var allTodos: seq<Todo>

    ghost predicate Valid()
      reads this
    {
      UniqueIds(allTodos)
    }

    /**
     * The seed: "Todo 1" then "Todo 2", both not done, reversed so that
     * "Todo 2" comes first. Ids and timestamps are drawn by the caller.
     */
    constructor (id1: string, date1: string, id2: string, date2: string)
      requires id1 != id2
      ensures Valid()
      ensures allTodos == [Todo(id2, "Todo 2", date2, false), Todo(id1, "Todo 1", date1, false)]
    {
      allTodos := Reverse([Todo(id1, "Todo 1", date1, false), Todo(id2, "Todo 2", date2, false)]);
    }

    /** `get(params)`: a page of the store, read without changing it. */
    method Get(params: Option<PageParams>) returns (out: GetOutput)
      requires params.Some? ==> ValidParams(params.value)
      ensures out == Paginate(allTodos, Resolve(params))
    {
      var p := Resolve(params);
      var startIndex := (p.page - 1) * p.limit;
      var endIndex := p.page * p.limit;
      StartBeforeEnd(p);
      var paginatedTodos := Slice(allTodos, startIndex, endIndex);
      var totalPages := CeilDiv(|allTodos|, p.limit);
      out := GetOutput(paginatedTodos, |allTodos|, totalPages);
    }

    /** `createByContent(content)`: append one fresh, not-done record and return it. */
    method CreateByContent(content: string, id: string, date: string) returns (todo: Todo)
      requires Valid()
      requires !HasId(allTodos, id)
      modifies this
      ensures Valid()
      ensures todo == Todo(id, content, date, false)
      ensures allTodos == old(allTodos) + [todo]
    {
      todo := Todo(id, content, date, false);
      allTodos := allTodos + [todo];
    }

    /** `toggleDone(id)`. */
    method ToggleDone(id: string) returns (r: Result<Todo, RepoError>)
      requires Valid()
      modifies this
      ensures Valid()
      ensures Outcome(allTodos, r) == Toggle(old(allTodos), id)
    {
      ToggleKeepsIds(allTodos, id);
      var index := FirstIndexOf(allTodos, id);
      if index.None? {
        return Err(PlainError(NotFoundMessage(id)));
      }
      var i := index.value;
      allTodos := allTodos[i := Flip(allTodos[i])];
      r := Ok(allTodos[i]);
    }

    /** `deleteById(id)`. */
    method DeleteById(id: string) returns (r: Result<Todo, RepoError>)
      requires Valid()
      modifies this
      ensures Valid()
      ensures Outcome(allTodos, r) == Delete(old(allTodos), id)
    {
      DeleteRemovesId(allTodos, id);
      var todoIndex := FirstIndexOf(allTodos, id);
      if todoIndex.None? {
        return Err(NotFoundError(NotFoundMessage(id), NotFoundStatus));
      }
      var i := todoIndex.value;
      var deletedTodo := allTodos[i];
      allTodos := allTodos[..i] + allTodos[i + 1..];
      r := Ok(deletedTodo);
    }
  }
}
