/**
 * The `App` component of my-app/src/App.js as a state machine: its four pieces
 * of React state, the route it navigates to, and the HTTP requests its handlers
 * issue. The network is abstracted to a log of requests; the collection fetch is
 * the `ReceiveTodos` step.
 */
module TodoShell {
  import opened Wrappers
  import opened TodoView

  /** The requests sent to the `/todos` collection endpoint. */
  datatype Request =
    | Post(id: int, title: string, checked: bool)                         // POST /todos
    | Put(pathId: int, bodyId: Option<int>, title: string, checked: bool)  // PUT /todos/{pathId}; `None` is `undefined`
    | Delete(pathId: int)                                                 // DELETE /todos/{pathId}

  /** The client-side routes: `/`, `task/:id` and `/404`. */
  datatype Route = Root | Task(id: Option<int>) | NotFound

  /** `!inputTodo` for a `prompt()` result: `None` is `null` (the dialog was dismissed). */
  predicate Cancelled(input: Option<string>): (r: bool)
    ensures r <==> input == None || input == Some("")
    ensures !r ==> input.Some? && |input.value| > 0
  {
    input.None? || input.value == ""
  }

  /**
   * `todos[0]?.id ? todos.at(-1).id + 1 : 1`: the id given to a new todo. The
   * guard looks at the FIRST todo (an id of 0 is falsy), the value at the LAST.
   */
  function NewId(todos: seq<Todo>): (id: int)
    ensures todos == [] ==> id == 1
    ensures todos != [] && todos[0].id == 0 ==> id == 1
    ensures todos != [] && todos[0].id != 0 ==> id == todos[|todos| - 1].id + 1
  {
    if todos != [] && todos[0].id != 0 then todos[|todos| - 1].id + 1 else 1
  }

  /** With positive, strictly increasing ids the new id is above every existing one. */
  lemma NewIdFreshWhenIncreasing(todos: seq<Todo>)
    requires forall i :: 0 <= i < |todos| ==> todos[i].id > 0
    requires forall i, j :: 0 <= i < j < |todos| ==> todos[i].id < todos[j].id
    ensures forall t :: t in todos ==> t.id < NewId(todos)
  {
    forall t | t in todos ensures t.id < NewId(todos) {
      var k :| 0 <= k < |todos| && todos[k] == t;
      assert k == |todos| - 1 || todos[k].id < todos[|todos| - 1].id;
    }
  }

  /** `[{id:1},{id:3}]` gives 4. */
  lemma NewIdAfterLast()
    ensures NewId([Todo(1, "a", false), Todo(3, "b", false)]) == 4
  {
  }

  /** The rule is not "maximum + 1": `[{id:3},{id:1}]` gives 2, and `[{id:2},{id:3},{id:1}]` gives an id already taken. */
  lemma NewIdIsNotMaxPlusOne()
    ensures NewId([Todo(3, "a", false), Todo(1, "b", false)]) == 2
    ensures var c := [Todo(2, "a", false), Todo(3, "b", false), Todo(1, "c", false)];
            NewId(c) == c[0].id
  {
  }

  /** A first id of 0 gives 1 even when a todo already carries id 1: `[{id:0},{id:1}]` gives 1. */
  lemma NewIdFalsyFirst()
    ensures var c := [Todo(0, "a", false), Todo(1, "b", false)];
            NewId(c) == 1 == c[1].id
  {
  }

  class App {
    var todos: seq<Todo>
    var refreshTodosFlag: bool
    var searchInput: string
    var sorted: bool
    /** The POST, PUT and DELETE requests the handlers have sent, oldest first. */
    var requests: seq<Request>
    var route: Route

    constructor (initialRoute: Route)
      ensures todos == [] && !refreshTodosFlag && searchInput == "" && !sorted
      ensures requests == [] && route == initialRoute
    {
      todos := [];
      refreshTodosFlag := false;
      searchInput := "";
      sorted := false;
      requests := [];
      route := initialRoute;
    }

    /** `refreshTodos`: flip the flag the fetch effect depends on. */
    method RefreshTodos()
      modifies this
      ensures refreshTodosFlag == !old(refreshTodosFlag)
      ensures todos == old(todos) && searchInput == old(searchInput) && sorted == old(sorted)
      ensures requests == old(requests) && route == old(route)
    {
      refreshTodosFlag := !refreshTodosFlag;
    }

    /** The fetch effect resolving: `setTodos(data)` with the collection the server returned. */
    method ReceiveTodos(data: seq<Todo>)
      modifies this
      ensures todos == data
      ensures refreshTodosFlag == old(refreshTodosFlag) && searchInput == old(searchInput) && sorted == old(sorted)
      ensures requests == old(requests) && route == old(route)
    {
      todos := data;
    }

    /** The search box's `onChange`: `setSearchInput(e.target.value)`. */
    method SetSearchInput(text: string)
      modifies this
      ensures searchInput == text
      ensures todos == old(todos) && refreshTodosFlag == old(refreshTodosFlag) && sorted == old(sorted)
      ensures requests == old(requests) && route == old(route)
    {
      searchInput := text;
    }

    /**
     * `handleAddTodos`: a cancelled or empty prompt does nothing; otherwise POST
     * the new todo, clear the search, refresh and go to `/`. `todos` itself is
     * not touched: the new todo only appears once a fetch delivers it.
     */
    method HandleAddTodos(input: Option<string>)
      modifies this
      ensures todos == old(todos) && sorted == old(sorted)
      ensures Cancelled(input) ==>
                refreshTodosFlag == old(refreshTodosFlag) && searchInput == old(searchInput) &&
                requests == old(requests) && route == old(route)
      ensures !Cancelled(input) ==>
                requests == old(requests) + [Post(NewId(old(todos)), input.value, false)] &&
                searchInput == "" && refreshTodosFlag == !old(refreshTodosFlag) && route == Root
      ensures !Cancelled(input) ==> multiset(VisibleTodos(todos, searchInput, sorted)) == multiset(todos)
    {
      if Cancelled(input) {
        return;
      }
      requests := requests + [Post(NewId(todos), input.value, false)];
      searchInput := "";
      RefreshTodos();
      route := Root;
    }

    /**
     * `handleEditTodos`: a cancelled or empty prompt does nothing; otherwise PUT
     * the new title to `id` with `checked` reset to false, and refresh.
     */
    method HandleEditTodos(id: int, input: Option<string>)
      modifies this
      ensures todos == old(todos) && sorted == old(sorted) && searchInput == old(searchInput) && route == old(route)
      ensures Cancelled(input) ==> refreshTodosFlag == old(refreshTodosFlag) && requests == old(requests)
      ensures !Cancelled(input) ==>
                requests == old(requests) + [Put(id, Some(id), input.value, false)] &&
                refreshTodosFlag == !old(refreshTodosFlag)
    {
      if Cancelled(input) {
        return;
      }
      requests := requests + [Put(id, Some(id), input.value, false)];
      RefreshTodos();
    }

    /** `handleDeleteTodos`: DELETE `id`, clear the search, refresh and go to `/`. */
    method HandleDeleteTodos(id: int)
      modifies this
      ensures requests == old(requests) + [Delete(id)]
      ensures searchInput == "" && refreshTodosFlag == !old(refreshTodosFlag) && route == Root
      ensures todos == old(todos) && sorted == old(sorted)
      ensures multiset(VisibleTodos(todos, searchInput, sorted)) == multiset(todos)
    {
      requests := requests + [Delete(id)];
      searchInput := "";
      RefreshTodos();
      route := Root;
    }

    /** `handleSort`: toggle the sort of the list screen. */
    method HandleSort()
      modifies this
      ensures sorted == !old(sorted)
      ensures todos == old(todos) && refreshTodosFlag == old(refreshTodosFlag) && searchInput == old(searchInput)
      ensures requests == old(requests) && route == old(route)
    {
      sorted := !sorted;
    }

    /**
     * `handleCheck`: PUT the first todo carrying `id` back with its title and the
     * negated `checked`. The body's id is read from a field `idMain` that todos
     * do not have, so it is `undefined`; the path still names `id`.
     */
    method HandleCheck(id: int)
      requires SelectById(todos, Some(id)) != []
      modifies this
      ensures exists k :: 0 <= k < |todos| && todos[k].id == id && (forall j :: 0 <= j < k ==> todos[j].id != id) &&
                          requests == old(requests) + [Put(id, None, todos[k].title, !todos[k].checked)]
      ensures refreshTodosFlag == !old(refreshTodosFlag)
      ensures todos == old(todos) && sorted == old(sorted) && searchInput == old(searchInput) && route == old(route)
    {
      SelectByIdHead(todos, id);
      var todoToChecked := SelectById(todos, Some(id))[0];
      requests := requests + [Put(id, None, todoToChecked.title, !todoToChecked.checked)];
      RefreshTodos();
    }
  }

  /** Pressing "Sort Todos" twice leaves the whole state as it was. */
  method SortTwice(app: App)
    modifies app
    ensures app.sorted == old(app.sorted)
    ensures app.todos == old(app.todos) && app.refreshTodosFlag == old(app.refreshTodosFlag)
    ensures app.searchInput == old(app.searchInput) && app.requests == old(app.requests) && app.route == old(app.route)
  {
    app.HandleSort();
    app.HandleSort();
  }

  /** Two refreshes restore the refresh flag. */
  method RefreshTwice(app: App)
    modifies app
    ensures app.refreshTodosFlag == old(app.refreshTodosFlag)
    ensures app.todos == old(app.todos) && app.sorted == old(app.sorted)
    ensures app.searchInput == old(app.searchInput) && app.requests == old(app.requests) && app.route == old(app.route)
  {
    app.RefreshTodos();
    app.RefreshTodos();
  }

  /**
   * A session: add to an empty list, receive `[{id:1},{id:3}]`, add again, then
   * check todo 5 of `[{id:5, title:"A", checked:false}]`.
   */
  method Session() returns (app: App)
    ensures app.requests == [Post(1, "Buy milk", false), Post(4, "X", false), Put(5, None, "A", true)]
    ensures app.route == Root && app.searchInput == "" && app.refreshTodosFlag
  {
    app := new App(Root);
    app.HandleAddTodos(Some("Buy milk"));
    app.ReceiveTodos([Todo(1, "Buy milk", false), Todo(3, "Y", false)]);
    app.HandleAddTodos(Some("X"));
    app.ReceiveTodos([Todo(5, "A", false)]);
    assert Todo(5, "A", false) in app.todos;
    app.HandleCheck(5);
  }
}
