/**
 * The browser's view of the list endpoint (src/app/ui/repository/todo.ts):
 * the request path `get` builds and the structural decoder
 * `parseTodosFromServer` it applies to the response body.
 */
module ClientRepository {
  import opened Wrappers
  import opened Json
  import opened TodoModel
  import ServerRepository

  // ---------------------------------------------------------- request path

  function DigitChar(d: nat): char
    requires d < 10
  {
    "0123456789"[d]
  }

  predicate IsDigitChar(c: char) {
    '0' <= c <= '9'
  }

  /** The decimal spelling of a natural number, without leading zeros. */
  function NatToString(n: nat): string
    decreases n
  {
    if n < 10 then [DigitChar(n)] else NatToString(n / 10) + [DigitChar(n % 10)]
  }

  /** `${n}` of an integral number. */
  function IntToString(n: int): string {
    if n < 0 then "-" + NatToString(-n) else NatToString(n)
  }

  /** The value of a string of decimal digits. */
  function DigitsValue(s: string): nat
    requires forall k :: 0 <= k < |s| ==> IsDigitChar(s[k])
  {
    if s == [] then 0
    else
      assert IsDigitChar(s[|s| - 1]);
      DigitsValue(s[..|s| - 1]) * 10 + (s[|s| - 1] as int - '0' as int)
  }

  lemma {:induction false} NatToStringDigits(n: nat)
    ensures |NatToString(n)| >= 1
    ensures forall k :: 0 <= k < |NatToString(n)| ==> IsDigitChar(NatToString(n)[k])
    ensures DigitsValue(NatToString(n)) == n
    decreases n
  {
    if n >= 10 {
      NatToStringDigits(n / 10);
      var s := NatToString(n);
      assert s[..|s| - 1] == NatToString(n / 10);
    }
  }

  /** Distinct integers are spelled differently, and no spelling contains `&`. */
  lemma IntToStringInjective(a: int, b: int)
    ensures forall k :: 0 <= k < |IntToString(a)| ==> IntToString(a)[k] != '&'
    ensures IntToString(a) == IntToString(b) ==> a == b
  {
    NatToStringDigits(if a < 0 then -a else a);
    NatToStringDigits(if b < 0 then -b else b);
    var sa, sb := IntToString(a), IntToString(b);
    // A negative spelling starts with '-', a non-negative one with a digit.
    assert a < 0 ==> sa[0] == '-' && sa[1..] == NatToString(-a);
    assert b < 0 ==> sb[0] == '-' && sb[1..] == NatToString(-b);
    assert a >= 0 ==> IsDigitChar(sa[0]);
    assert b >= 0 ==> IsDigitChar(sb[0]);
    if sa == sb && a < 0 && b < 0 {
      assert DigitsValue(NatToString(-a)) == DigitsValue(NatToString(-b));
    }
    if sa == sb && a >= 0 && b >= 0 {
      assert DigitsValue(NatToString(a)) == DigitsValue(NatToString(b));
    }
  }

  /** The path `get` fetches: `/api/todos?page=<page>&limit=<limit>`. */
  function RequestPath(page: int, limit: int): string {
    "/api/todos?page=" + IntToString(page) + "&limit=" + IntToString(limit)
  }

  /** `i` is the first position of `ch` in `x`. */
  predicate FirstAt(x: string, ch: char, i: int) {
    0 <= i < |x| && x[i] == ch && forall k :: 0 <= k < i ==> x[k] != ch
  }

  lemma SplitAtSeparator(a: string, b: string, c: string, d: string, sep: string)
    requires |sep| > 0
    requires forall k :: 0 <= k < |a| ==> a[k] != sep[0]
    requires forall k :: 0 <= k < |c| ==> c[k] != sep[0]
    requires a + sep + b == c + sep + d
    ensures a == c && b == d
  {
    var x, y := a + sep + b, c + sep + d;
    assert FirstAt(x, sep[0], |a|);
    assert FirstAt(y, sep[0], |c|);
    assert a == x[..|a|] && c == y[..|c|];
    assert b == x[|a| + |sep|..] && d == y[|c| + |sep|..];
  }

  /** The path carries exactly the page and limit it was built from: distinct requests get distinct paths. */
  lemma RequestPathInjective(page1: int, limit1: int, page2: int, limit2: int)
    requires RequestPath(page1, limit1) == RequestPath(page2, limit2)
    ensures page1 == page2 && limit1 == limit2
  {
    var prefix := "/api/todos?page=";
    var p1, p2, l1, l2 := IntToString(page1), IntToString(page2), IntToString(limit1), IntToString(limit2);
    assert RequestPath(page1, limit1) == prefix + (p1 + "&limit=" + l1);
    assert RequestPath(page2, limit2) == prefix + (p2 + "&limit=" + l2);
    assert p1 + "&limit=" + l1 == p2 + "&limit=" + l2 by {
      var x, y := RequestPath(page1, limit1), RequestPath(page2, limit2);
      assert x[|prefix|..] == p1 + "&limit=" + l1;
      assert y[|prefix|..] == p2 + "&limit=" + l2;
    }
    IntToStringInjective(page1, page2);
    IntToStringInjective(page2, page1);
    SplitAtSeparator(p1, l1, p2, l2, "&limit=");
    IntToStringInjective(limit1, limit2);
  }

  // -------------------------------------------------------------- decoder

  /**
   * A decoded todo: the element's `id`, `content`, `date` and `done` exactly as
   * received. The decoder does not check their types.
   */
  datatype ParsedTodo = ParsedTodo(id: Value, content: Value, date: Value, done: Value)

  /**
   * What `parseTodosFromServer` produces: `undefined` when the body does not have
   * the page shape, the error it throws on a bad element, or the decoded page.
   * `total` and `pages` are the fields as received, before the `Number(...)` coercion.
   */
  datatype Decoded =
    | NoResult
    | Thrown(message: string)
    | Page(total: Value, pages: Value, todos: seq<ParsedTodo>)

  const InvalidTodoMessage := "Invalid todo from api"

  /** The guard of `parseTodosFromServer`: a non-null object with `todos`, `total`, `pages`, and `todos` an array. */
  predicate HasPageShape(body: Value) {
    && body != Null
    && IsObjectType(body)
    && HasProperty(body, "todos")
    && HasProperty(body, "total")
    && HasProperty(body, "pages")
    && Property(body, "todos").Array?
  }

  /** An element the `map` callback accepts: of object type and not `null` (arrays pass). */
  predicate IsTodoLike(v: Value) {
    v != Null && IsObjectType(v)
  }

  /** The record built from one accepted element by destructuring. */
  function ParseTodo(v: Value): ParsedTodo {
    ParsedTodo(Property(v, "id"), Property(v, "content"), Property(v, "date"), Property(v, "done"))
  }

  /** `todos.map(...)`: left to right, throwing at the first element that is not todo-like. */
  function ParseTodoList(items: seq<Value>): (r: Result<seq<ParsedTodo>, string>)
    ensures r.Ok? <==> forall k :: 0 <= k < |items| ==> IsTodoLike(items[k])
    ensures r.Err? ==> r.error == InvalidTodoMessage
    ensures r.Ok? ==> |r.value| == |items|
    ensures r.Ok? ==> forall k :: 0 <= k < |items| ==> r.value[k] == ParseTodo(items[k])
  {
    if items == [] then Ok([])
    else if !IsTodoLike(items[0]) then Err(InvalidTodoMessage)
    else match ParseTodoList(items[1..])
      case Err(e) => Err(e)
      case Ok(rest) =>
        assert forall k :: 1 <= k < |items| ==> items[k] == items[1..][k - 1];
        Ok([ParseTodo(items[0])] + rest)
  }

  /** `parseTodosFromServer(responseBody)`. */
  function ParseTodosFromServer(body: Value): Decoded {
    if HasPageShape(body) then
      match ParseTodoList(Property(body, "todos").items)
      case Err(message) => Thrown(message)
      case Ok(todos) => Page(Property(body, "total"), Property(body, "pages"), todos)
    else NoResult
  }

  /**
   * The decoder's three outcomes: no result exactly when the body lacks the page
   * shape; a thrown "Invalid todo from api" exactly when some element is null or
   * not an object; otherwise one record per element, in order, each field copied
   * as received, and `total` and `pages` taken from the body.
   */
  lemma ParseTodosFromServerSpec(body: Value)
    ensures ParseTodosFromServer(body).NoResult? <==> !HasPageShape(body)
    ensures HasPageShape(body) ==>
      var items := body.fields["todos"].items;
      && (ParseTodosFromServer(body).Thrown? <==> exists k :: 0 <= k < |items| && !IsTodoLike(items[k]))
      && (ParseTodosFromServer(body).Thrown? ==> ParseTodosFromServer(body).message == InvalidTodoMessage)
  {
  }

  lemma ParseTodosFromServerCopies(body: Value)
    requires ParseTodosFromServer(body).Page?
    ensures var items, out := body.fields["todos"].items, ParseTodosFromServer(body);
      && out.total == body.fields["total"]
      && out.pages == body.fields["pages"]
      && |out.todos| == |items|
      && forall k :: 0 <= k < |items| ==>
           && out.todos[k].id == Property(items[k], "id")
           && out.todos[k].content == Property(items[k], "content")
           && out.todos[k].date == Property(items[k], "date")
           && out.todos[k].done == Property(items[k], "done")
  {
  }

  // ------------------------------------------- the body the server sends

  /** A todo as the server serialises it: `{id, content, date, done}`. */
  function EncodeTodo(t: Todo): Value {
    Object(map["id" := Str(t.id), "content" := Str(t.content), "date" := Str(t.date), "done" := Bool(t.done)])
  }

  /** The 200 body of the list endpoint: `{total, todos, pages}`. */
  function EncodeGetOutput(out: ServerRepository.GetOutput): Value {
    Object(map[
      "total" := Number(out.total),
      "todos" := Array(seq(|out.todos|, k requires 0 <= k < |out.todos| => EncodeTodo(out.todos[k]))),
      "pages" := Number(out.pages)])
  }

  /** A decoded record whose fields have the types of a todo, read back as one. */
  function AsTodo(p: ParsedTodo): Option<Todo> {
    if p.id.Str? && p.content.Str? && p.date.Str? && p.done.Bool? then
      Some(Todo(p.id.s, p.content.s, p.date.s, p.done.b))
    else None
  }

  /** Decoding what the server sends for a page gives back that page: its count fields and every record, in order. */
  lemma DecodeEncodedPage(out: ServerRepository.GetOutput)
    ensures var d := ParseTodosFromServer(EncodeGetOutput(out));
      && d.Page?
      && d.total == Number(out.total)
      && d.pages == Number(out.pages)
      && |d.todos| == |out.todos|
      && forall k :: 0 <= k < |out.todos| ==> AsTodo(d.todos[k]) == Some(out.todos[k])
  {
    var body := EncodeGetOutput(out);
    assert HasPageShape(body);
    var items := Property(body, "todos").items;
    assert forall k :: 0 <= k < |items| ==> IsTodoLike(items[k]);
  }
}
