/**
 * The state of the home page (src/app/page.tsx): the `useState` slots and
 * the `initialLoadCompleted` ref, changed event by event. Each request the
 * page issues is returned by the event that issues it; each answer arrives as
 * an event of its own, so the order of answers is up to the caller.
 */
module HomePage {
  import opened Wrappers
  import opened TodoModel
  import ServerRepository
  import ClientController

  /** The page's toggle update: a copy of each record carrying `id` with `done` negated, the others as they are. */
  function FlipAllWithId(todos: seq<Todo>, id: string): seq<Todo> {
    if todos == [] then []
    else [if todos[0].id == id then Flip(todos[0]) else todos[0]] + FlipAllWithId(todos[1..], id)
  }

  /** The page's delete update: the records whose id differs from `id`. */
  function RemoveAllWithId(todos: seq<Todo>, id: string): seq<Todo> {
    if todos == [] then []
    else (if todos[0].id == id then [] else [todos[0]]) + RemoveAllWithId(todos[1..], id)
  }

  /** The toggle update keeps the length and flips `done` of exactly the records carrying `id`. */
  lemma {:induction false} FlipAllWithIdSpec(todos: seq<Todo>, id: string)
    ensures |FlipAllWithId(todos, id)| == |todos|
    ensures forall k :: 0 <= k < |todos| ==>
      FlipAllWithId(todos, id)[k] == if todos[k].id == id then Flip(todos[k]) else todos[k]
  {
    if todos != [] {
      FlipAllWithIdSpec(todos[1..], id);
    }
  }

  /** Toggling the same id twice on the page restores the list. */
  lemma FlipAllWithIdTwice(todos: seq<Todo>, id: string)
    ensures FlipAllWithId(FlipAllWithId(todos, id), id) == todos
  {
    FlipAllWithIdSpec(todos, id);
    FlipAllWithIdSpec(FlipAllWithId(todos, id), id);
  }

  /**
   * The delete update leaves no record with `id`, keeps every other record as
   * many times as it occurs, and keeps the kept records in their order.
   */
  lemma {:induction false} RemoveAllWithIdSpec(todos: seq<Todo>, id: string)
    ensures !HasId(RemoveAllWithId(todos, id), id)
    ensures forall t :: t in RemoveAllWithId(todos, id) <==> t in todos && t.id != id
    ensures forall t :: multiset(RemoveAllWithId(todos, id))[t] == if t.id == id then 0 else multiset(todos)[t]
    ensures IsSubsequence(RemoveAllWithId(todos, id), todos)
  {
    if todos != [] {
      RemoveAllWithIdSpec(todos[1..], id);
      var rest := RemoveAllWithId(todos[1..], id);
      assert todos == [todos[0]] + todos[1..];
      assert multiset(todos) == multiset{todos[0]} + multiset(todos[1..]);
      if todos[0].id == id {
        assert RemoveAllWithId(todos, id) == rest;
        SubsequenceOfTail(rest, todos);
      } else {
        assert ([todos[0]] + rest)[1..] == rest;
      }
      assert forall t :: t in todos <==> t == todos[0] || t in todos[1..];
    }
  }

  /**
   * When ids are unique the page's optimistic updates agree with what the
   * server does to the same list: toggling flips the one record, deleting
   * removes it.
   */
  lemma {:induction false} OptimisticUpdatesMatchServer(todos: seq<Todo>, id: string)
    requires UniqueIds(todos)
    ensures FlipAllWithId(todos, id) == ServerRepository.Toggle(todos, id).store
    ensures RemoveAllWithId(todos, id) == ServerRepository.Delete(todos, id).store
  {
    FlipAllWithIdSpec(todos, id);
    match FirstIndexOf(todos, id)
    case None =>
      NoIdRemoveAll(todos, id);
    case Some(i) =>
      UniqueFirstIndex(todos, id, i);
      RemoveOnlyAt(todos, id, i);
  }

  lemma {:induction false} NoIdRemoveAll(todos: seq<Todo>, id: string)
    requires !HasId(todos, id)
    ensures RemoveAllWithId(todos, id) == todos
  {
    if todos != [] {
      assert forall k :: 1 <= k < |todos| ==> todos[1..][k - 1] == todos[k];
      NoIdRemoveAll(todos[1..], id);
    }
  }

  lemma {:induction false} RemoveOnlyAt(todos: seq<Todo>, id: string, i: nat)
    requires i < |todos| && todos[i].id == id
    requires forall k :: 0 <= k < |todos| && k != i ==> todos[k].id != id
    ensures RemoveAllWithId(todos, id) == todos[..i] + todos[i + 1..]
  {
    if i == 0 {
      assert forall k :: 1 <= k < |todos| ==> todos[1..][k - 1] == todos[k];
      NoIdRemoveAll(todos[1..], id);
    } else {
      RemoveOnlyAt(todos[1..], id, i - 1);
      assert todos[1..][..i - 1] + todos[1..][i..] == todos[1..i] + todos[i + 1..];
      assert todos[..i] + todos[i + 1..] == [todos[0]] + (todos[1..i] + todos[i + 1..]);
    }
  }

  /** What a list request resolved with: the `todos` and `pages` the page reads (`None` in an event stands for a rejected request). */
  datatype Fetched = Fetched(todos: seq<Todo>, pages: int)

  /**
   * When the page count came from the server (`Math.ceil(total / limit)`),
   * the "load more" button shows exactly when the store holds records beyond
   * the first `page` pages.
   */
  lemma MorePagesIffRecordsRemain(h: Home, total: nat, limit: int)
    requires limit >= 1
    requires h.totalPages == ServerRepository.CeilDiv(total, limit)
    ensures h.HasMorePages() <==> total > h.page * limit
  {
    var q := h.totalPages;
    assert limit * (q - 1) < total <= limit * q;
    if h.page < q {
      ServerRepository.MulMonotone(h.page, q - 1, limit);
    } else {
      ServerRepository.MulMonotone(q, h.page, limit);
    }
  }

  class Home {
    var isLoading: bool
    var totalPages: int
    var page: int
    var todos: seq<Todo>
    var search: string
    var newTodoContent: string
    var initialLoadCompleted: bool

    /** The first render: loading, on page 1 of 1, with nothing listed and nothing searched. */
    constructor ()
      ensures isLoading && totalPages == 1 && page == 1 && todos == [] && search == ""
      ensures newTodoContent == "" && !initialLoadCompleted
    {
      isLoading, totalPages, page, todos := true, 1, 1, [];
      search, newTodoContent, initialLoadCompleted := "", "", false;
    }

    /** `homeTodos`: the loaded records that match the search, in their loaded order. */
    function HomeTodos(): (r: seq<Todo>)
      reads this
      ensures forall t :: t in r <==> t in todos && ClientController.Matches(t, search)
      ensures IsSubsequence(r, todos)
    {
      ClientController.FilterIsSubsequence(todos, search);
      ClientController.FilterTodosByContent(todos, search)
    }

    /** `hasNoTodos`: nothing loaded matches the search, and nothing is loading. */
    predicate HasNoTodos()
      reads this
      ensures HasNoTodos() <==>
        !isLoading && forall t :: t in todos ==> !ClientController.Matches(t, search)
    {
      var shown := HomeTodos();
      assert shown != [] ==> shown[0] in shown;
      |shown| == 0 && !isLoading
    }

    /** `hasMorePages`: the "load more" button is shown. */
    predicate HasMorePages()
      reads this
    {
      page < totalPages
    }

    /** The mount effect: the first load asks for page 1 of 3, unless the first load already completed. */
    method Mount() returns (request: Option<ClientController.PageRequest>)
      ensures request.Some? <==> !initialLoadCompleted
      ensures request.Some? ==> request.value == ClientController.PageRequest(1, 3)
    {
      if !initialLoadCompleted {
        request := Some(ClientController.Get(None, None));
      } else {
        request := None;
      }
    }

    /** The first load settles: its records replace the list and `pages` becomes the page count; loading ends either way. */
    method LoadTodosSettled(answer: Option<Fetched>)
      modifies this
      ensures answer.Some? ==> todos == answer.value.todos && totalPages == answer.value.pages
      ensures answer.None? ==> todos == old(todos) && totalPages == old(totalPages)
      ensures !isLoading && initialLoadCompleted
      ensures page == old(page) && search == old(search) && newTodoContent == old(newTodoContent)
    {
      if answer.Some? {
        todos := answer.value.todos;
        totalPages := answer.value.pages;
      }
      isLoading := false;
      initialLoadCompleted := true;
    }

    /** A click on "load more", which exists only while `HasMorePages()`: move to the next page and ask for it. */
    method LoadMoreClicked() returns (request: ClientController.PageRequest)
      requires HasMorePages()
      modifies this
      ensures page == old(page) + 1 && isLoading
      ensures request == ClientController.PageRequest(page, 3)
      ensures todos == old(todos) && totalPages == old(totalPages) && search == old(search)
      ensures newTodoContent == old(newTodoContent) && initialLoadCompleted == old(initialLoadCompleted)
    {
      var nextPage := page + 1;
      page := nextPage;
      isLoading := true;
      request := ClientController.Get(Some(nextPage), None);
    }

    /**
     * A "load more" request settles: its records are appended after the list, so
     * the displayed list grows by the matching fetched records; loading ends either way.
     */
    method LoadMoreSettled(answer: Option<Fetched>)
      modifies this
      ensures answer.Some? ==> todos == old(todos) + answer.value.todos && totalPages == answer.value.pages
      ensures answer.Some? ==>
        HomeTodos() == old(HomeTodos()) + ClientController.FilterTodosByContent(answer.value.todos, search)
      ensures answer.None? ==> todos == old(todos) && totalPages == old(totalPages)
      ensures !isLoading
      ensures page == old(page) && search == old(search) && newTodoContent == old(newTodoContent)
      ensures initialLoadCompleted == old(initialLoadCompleted)
    {
      if answer.Some? {
        ClientController.FilterAppend(todos, answer.value.todos, search);
        todos := todos + answer.value.todos;
        totalPages := answer.value.pages;
      }
      isLoading := false;
    }

    /** Typing in the search box. */
    method SearchChanged(content: string)
      modifies this
      ensures search == content
      ensures todos == old(todos) && page == old(page) && totalPages == old(totalPages)
      ensures isLoading == old(isLoading) && newTodoContent == old(newTodoContent)
      ensures initialLoadCompleted == old(initialLoadCompleted)
    {
      search := content;
    }

    /** Typing in the new-todo box. */
    method NewTodoChanged(content: string)
      modifies this
      ensures newTodoContent == content
      ensures todos == old(todos) && page == old(page) && totalPages == old(totalPages)
      ensures isLoading == old(isLoading) && search == old(search)
      ensures initialLoadCompleted == old(initialLoadCompleted)
    {
      newTodoContent := content;
    }

    /** Submitting the new todo: the typed content goes to the client controller's create and the box is cleared. */
    method CreateSubmitted() returns (request: ClientController.Guarded)
      modifies this
      ensures request == ClientController.Create(Some(old(newTodoContent)))
      ensures newTodoContent == ""
      ensures todos == old(todos) && page == old(page) && totalPages == old(totalPages)
      ensures isLoading == old(isLoading) && search == old(search)
      ensures initialLoadCompleted == old(initialLoadCompleted)
    {
      var content := newTodoContent;
      request := ClientController.Create(Some(content));
      newTodoContent := "";
    }

    /** The create request resolved with `todo`: it is put first in the list. */
    method CreateResolved(todo: Todo)
      modifies this
      ensures todos == [todo] + old(todos)
      ensures page == old(page) && totalPages == old(totalPages) && isLoading == old(isLoading)
      ensures search == old(search) && newTodoContent == old(newTodoContent)
      ensures initialLoadCompleted == old(initialLoadCompleted)
    {
      todos := [todo] + todos;
    }

    /** A click on a checkbox: send the toggle and, without waiting, flip every loaded record with `id`. */
    method Toggle(id: string) returns (request: ClientController.Guarded)
      modifies this
      ensures request == ClientController.ToggleDone(id)
      ensures todos == FlipAllWithId(old(todos), id)
      ensures |todos| == |old(todos)|
      ensures forall k :: 0 <= k < |todos| ==>
        todos[k] == if old(todos)[k].id == id then Flip(old(todos)[k]) else old(todos)[k]
      ensures page == old(page) && totalPages == old(totalPages) && isLoading == old(isLoading)
      ensures search == old(search) && newTodoContent == old(newTodoContent)
      ensures initialLoadCompleted == old(initialLoadCompleted)
    {
      request := ClientController.ToggleDone(id);
      FlipAllWithIdSpec(todos, id);
      todos := FlipAllWithId(todos, id);
    }

    /** A click on "Apagar": send the delete and, without waiting, drop every loaded record with `id`. */
    method DeleteById(id: string) returns (request: ClientController.Guarded)
      modifies this
      ensures request == ClientController.DeleteById(id)
      ensures todos == RemoveAllWithId(old(todos), id)
      ensures !HasId(todos, id)
      ensures forall t :: t in todos <==> t in old(todos) && t.id != id
      ensures page == old(page) && totalPages == old(totalPages) && isLoading == old(isLoading)
      ensures search == old(search) && newTodoContent == old(newTodoContent)
      ensures initialLoadCompleted == old(initialLoadCompleted)
    {
      request := ClientController.DeleteById(id);
      RemoveAllWithIdSpec(todos, id);
      todos := RemoveAllWithId(todos, id);
    }
  }
}
