/**
 * The browser-side controller (src/app/ui/controller/todo.ts): the request
 * defaults of `get`, the non-empty-string guards in front of the repository
 * calls, and the case-insensitive content filter.
 */
module ClientController {
  import opened Wrappers
  import opened TodoModel
  import ClientRepository

  // ------------------------------------------------------------- requests

  datatype PageRequest = PageRequest(page: int, limit: int)

  const DefaultPage := 1
  const DefaultLimit := 3

  /** `get({page, limit = 3})`: what is handed to the repository, `page ?? 1` and the limit or its default. */
  function Get(page: Option<int>, limit: Option<int>): (r: PageRequest)
    ensures page.Some? ==> r.page == page.value
    ensures limit.Some? ==> r.limit == limit.value
    ensures page.None? ==> r.page == 1
    ensures limit.None? ==> r.limit == 3
  {
    PageRequest(page.GetOr(DefaultPage), limit.GetOr(DefaultLimit))
  }

  /** The path a request is fetched from. */
  function RequestPathOf(r: PageRequest): string {
    ClientRepository.RequestPath(r.page, r.limit)
  }

  /** A call with no arguments asks for page 1 of 3, and two requests share a path only when they are equal. */
  lemma GetDefaultPath(r1: PageRequest, r2: PageRequest)
    ensures RequestPathOf(Get(None, None)) == "/api/todos?page=1&limit=3"
    ensures RequestPathOf(r1) == RequestPathOf(r2) ==> r1 == r2
  {
    assert ClientRepository.IntToString(1) == "1";
    assert ClientRepository.IntToString(3) == "3";
    if RequestPathOf(r1) == RequestPathOf(r2) {
      ClientRepository.RequestPathInjective(r1.page, r1.limit, r2.page, r2.limit);
    }
  }

  // --------------------------------------------------------------- guards

  /** The outcome of a guard: the call is refused before the repository, or the argument is forwarded. */
  datatype Guarded = Rejected | Forwarded(arg: string)

  /** `schema.string().nonempty().safeParse(x)`: a present, non-empty string passes unchanged. */
  function NonEmptyString(x: Option<string>): Guarded {
    if x.Some? && x.value != "" then Forwarded(x.value) else Rejected
  }

  /** `create({content})`: the content reaches `createByContent` exactly when it is present and non-empty. */
  function Create(content: Option<string>): (r: Guarded)
    ensures r.Forwarded? <==> content.Some? && |content.value| > 0
    ensures r.Forwarded? ==> r.arg == content.value
  {
    NonEmptyString(content)
  }

  /** `toggleDone(id)`: the id reaches the repository exactly when it is non-empty, unchanged. */
  function ToggleDone(id: string): (r: Guarded)
    ensures r.Forwarded? <==> |id| > 0
    ensures r.Forwarded? ==> r.arg == id
  {
    NonEmptyString(Some(id))
  }

  /** `deleteById(id)`: the id reaches the repository exactly when it is non-empty, unchanged. */
  function DeleteById(id: string): (r: Guarded)
    ensures r.Forwarded? <==> |id| > 0
    ensures r.Forwarded? ==> r.arg == id
  {
    NonEmptyString(Some(id))
  }

  // --------------------------------------------------------------- filter

  /** `toLowerCase` restricted to ASCII letters. */
  function LowerChar(c: char): char {
    if 'A' <= c <= 'Z' then (c as int + 32) as char else c
  }

  function Lower(s: string): (r: string)
    ensures |r| == |s|
    ensures forall k :: 0 <= k < |s| ==> r[k] == LowerChar(s[k])
  {
    seq(|s|, k requires 0 <= k < |s| => LowerChar(s[k]))
  }

  /** `t` occurs in `s` starting at position `i`. */
  predicate OccursAt(s: string, t: string, i: int) {
    0 <= i <= |s| - |t| && s[i..i + |t|] == t
  }

  /** `s.includes(t)`: `t` occurs in `s` at some position. */
  predicate Includes(s: string, t: string) {
    exists i | 0 <= i <= |s| - |t| :: OccursAt(s, t, i)
  }

  /** The filter's test for one record. */
  predicate Matches(t: Todo, search: string) {
    Includes(Lower(t.content), Lower(search))
  }

  /** `filterTodosByContent(todos, search)`. */
  function FilterTodosByContent(todos: seq<Todo>, search: string): (r: seq<Todo>)
    ensures |r| <= |todos|
    ensures forall t :: t in r ==> t in todos && Matches(t, search)
    ensures forall t :: t in todos && Matches(t, search) ==> t in r
  {
    if todos == [] then []
    else
      var rest := FilterTodosByContent(todos[1..], search);
      assert forall t :: t in todos ==> t == todos[0] || t in todos[1..];
      if Matches(todos[0], search) then [todos[0]] + rest else rest
  }

  /** The filter keeps the kept records in their original relative order. */
  lemma {:induction false} FilterIsSubsequence(todos: seq<Todo>, search: string)
    ensures IsSubsequence(FilterTodosByContent(todos, search), todos)
  {
    if todos != [] {
      FilterIsSubsequence(todos[1..], search);
      var rest := FilterTodosByContent(todos[1..], search);
      if Matches(todos[0], search) {
        assert ([todos[0]] + rest)[1..] == rest;
      } else {
        SubsequenceOfTail(rest, todos);
      }
    }
  }

  /** The filter splits over concatenation: filtering a longer list filters each part. */
  lemma {:induction false} FilterAppend(a: seq<Todo>, b: seq<Todo>, search: string)
    ensures FilterTodosByContent(a + b, search)
      == FilterTodosByContent(a, search) + FilterTodosByContent(b, search)
  {
    if a != [] {
      assert (a + b)[1..] == a[1..] + b;
      FilterAppend(a[1..], b, search);
    } else {
      assert a + b == b;
    }
  }

  /** The empty search keeps every record. */
  lemma {:induction false} FilterEmptySearch(todos: seq<Todo>)
    ensures FilterTodosByContent(todos, "") == todos
  {
    if todos != [] {
      var c := Lower(todos[0].content);
      assert OccursAt(c, Lower(""), 0);
      FilterEmptySearch(todos[1..]);
    }
  }

  /** Filtering a filtered list again with the same search changes nothing. */
  lemma {:induction false} FilterIdempotent(todos: seq<Todo>, search: string)
    ensures var once := FilterTodosByContent(todos, search);
      FilterTodosByContent(once, search) == once
  {
    if todos != [] {
      FilterIdempotent(todos[1..], search);
      var rest := FilterTodosByContent(todos[1..], search);
      if Matches(todos[0], search) {
        assert ([todos[0]] + rest)[1..] == rest;
      }
    }
  }

  lemma LowerIdempotent(s: string)
    ensures Lower(Lower(s)) == Lower(s)
  {
  }

  /** Two searches that lower-case alike select the same records: the filter ignores the case of the search. */
  lemma {:induction false} FilterCaseInsensitive(todos: seq<Todo>, search1: string, search2: string)
    requires Lower(search1) == Lower(search2)
    ensures FilterTodosByContent(todos, search1) == FilterTodosByContent(todos, search2)
    ensures FilterTodosByContent(todos, Lower(search1)) == FilterTodosByContent(todos, search1)
  {
    LowerIdempotent(search1);
    if todos != [] {
      FilterCaseInsensitive(todos[1..], search1, search2);
    }
  }
}
