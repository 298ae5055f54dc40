/**
 * The list and todo rules of the Sinatra application (todo.rb).
 *
 * The route handlers keep the lists directly in `session[:lists]` and address
 * them by POSITION: a list is `{ name:, todos: [] }` and a todo is
 * `{ name:, completed: }`, neither with an id. This module models the view
 * helpers (counts, completeness, incomplete-first ordering), the two name
 * validators and the effect of every POST handler on `session[:lists]`.
 */
module TodoApp {
  import opened Wrappers
  import opened Seqs

  /** A todo `{ name:, completed: }`. */
  datatype Todo = Todo(name: string, completed: bool)

  /** A list `{ name:, todos: }`. */
  datatype TodoList = TodoList(name: string, todos: seq<Todo>)

  // ---------------------------------------------------------------------------
  // View helpers

  /** The block `{ |todo| todo[:completed] }`. */
  const IsCompleted: Todo -> bool := (t: Todo) => t.completed

  /** `todos_count(list)`: `list[:todos].size`. */
  function TodosCount(list: TodoList): nat
  {
    |list.todos|
  }

  /** `todos_remaining_count(list)`: `list[:todos].count { |todo| !todo[:completed] }`. */
  function TodosRemainingCount(list: TodoList): (n: nat)
    ensures n <= TodosCount(list)
    ensures n == 0 <==> forall k :: 0 <= k < |list.todos| ==> list.todos[k].completed
  {
    NoneOpenIffAllCompleted(list.todos);
    |Filter(list.todos, Not(IsCompleted))|
  }

  lemma NoneOpenIffAllCompleted(todos: seq<Todo>)
    ensures |Filter(todos, Not(IsCompleted))| == 0 <==> forall k :: 0 <= k < |todos| ==> todos[k].completed
  {
    if forall k :: 0 <= k < |todos| ==> todos[k].completed {
      FilterDropsAll(todos, Not(IsCompleted));
    }
  }

  /** `list_complete?(list)`: the list has todos and none of them is still open. */
  predicate ListComplete(list: TodoList)
    ensures ListComplete(list) <==> |list.todos| > 0 && forall k :: 0 <= k < |list.todos| ==> list.todos[k].completed
  {
    |list.todos| != 0 && TodosRemainingCount(list) == 0
  }

  /** Setting one todo's flag moves the remaining count by exactly that todo's contribution. */
  lemma RemainingAfterUpdate(list: TodoList, j: nat, completed: bool)
    requires j < |list.todos|
    ensures var after := list.(todos := list.todos[j := list.todos[j].(completed := completed)]);
      TodosRemainingCount(after) + (if list.todos[j].completed then 0 else 1)
        == TodosRemainingCount(list) + (if completed then 0 else 1)
  {
    FilterUpdateLength(list.todos, j, list.todos[j].(completed := completed), Not(IsCompleted));
  }

  // ---------------------------------------------------------------------------
  // sort_lists / sort_todos: incomplete items first, each paired with `items.index(item)`

  /** The items of a yielded `(item, index)` stream. */
  function Items<T>(pairs: seq<(T, nat)>): (items: seq<T>)
    ensures |items| == |pairs|
    ensures forall k :: 0 <= k < |pairs| ==> items[k] == pairs[k].0
  {
    seq(|pairs|, k requires 0 <= k < |pairs| => pairs[k].0)
  }

  /**
   * `complete, incomplete = items.partition(&complete)`, then every incomplete
   * item and then every complete one is yielded with `items.index(item)`, the
   * first position holding an equal item.
   */
  function IncompleteFirst<T(==)>(s: seq<T>, complete: T -> bool): (r: seq<(T, nat)>)
    ensures |r| == |s|
    ensures forall k :: 0 <= k < |r| ==> r[k].1 < |s| && s[r[k].1] == r[k].0
    ensures forall k, j :: 0 <= k < |r| && 0 <= j < r[k].1 ==> s[j] != r[k].0
    ensures forall i, j :: 0 <= i < j < |r| && complete(r[i].0) ==> complete(r[j].0)
  {
    var pending := Filter(s, Not(complete));
    var done := Filter(s, complete);
    FilterSplits(s, complete);
    FilterMembers(s, Not(complete));
    FilterMembers(s, complete);
    var order := pending + done;
    ConcatIsIncompleteFirst(pending, done, complete);
    assert forall k :: 0 <= k < |order| ==> order[k] in s;
    seq(|order|, k requires 0 <= k < |order| => (order[k], FirstIndexOf(s, order[k])))
  }

  /** A part that fails `p` followed by a part that meets it has every `p`-item after every other item. */
  lemma ConcatIsIncompleteFirst<T>(a: seq<T>, b: seq<T>, p: T -> bool)
    requires forall i :: 0 <= i < |a| ==> Not(p)(a[i])
    requires forall j :: 0 <= j < |b| ==> p(b[j])
    ensures forall i, j :: 0 <= i < j < |a + b| && p((a + b)[i]) ==> p((a + b)[j])
  {
    forall i, j | 0 <= i < j < |a + b| && p((a + b)[i]) ensures p((a + b)[j]) {
      if j >= |a| {
        assert (a + b)[j] == b[j - |a|];
      }
    }
  }

  /** The yielded items are the incomplete items followed by the complete ones. */
  lemma IncompleteFirstItems<T>(s: seq<T>, complete: T -> bool)
    ensures Items(IncompleteFirst(s, complete)) == Filter(s, Not(complete)) + Filter(s, complete)
  {
    var order := Filter(s, Not(complete)) + Filter(s, complete);
    var items := Items(IncompleteFirst(s, complete));
    assert |items| == |order| by {
      FilterSplits(s, complete);
    }
    assert forall k :: 0 <= k < |items| ==> items[k] == order[k];
  }

  /** Every item is yielded exactly as often as it occurs. */
  lemma IncompleteFirstIsPermutation<T>(s: seq<T>, complete: T -> bool)
    ensures multiset(Items(IncompleteFirst(s, complete))) == multiset(s)
  {
    IncompleteFirstItems(s, complete);
    FilterSplits(s, complete);
  }

  /** The ordering is stable: within each group the items keep their original relative order. */
  lemma IncompleteFirstIsStable<T>(s: seq<T>, complete: T -> bool)
    ensures Filter(Items(IncompleteFirst(s, complete)), Not(complete)) == Filter(s, Not(complete))
    ensures Filter(Items(IncompleteFirst(s, complete)), complete) == Filter(s, complete)
  {
    var pending := Filter(s, Not(complete));
    var done := Filter(s, complete);
    IncompleteFirstItems(s, complete);
    FilterConcat(pending, done, Not(complete));
    FilterConcat(pending, done, complete);
    FilterKeepsAll(pending, Not(complete));
    FilterDropsAll(done, Not(complete));
    FilterDropsAll(pending, complete);
    FilterKeepsAll(done, complete);
  }

  /** When no two items are equal, no two yielded indices are equal: the indices are a permutation of the positions. */
  lemma IncompleteFirstDistinctIndices<T>(s: seq<T>, complete: T -> bool)
    requires forall i, j :: 0 <= i < j < |s| ==> s[i] != s[j]
    ensures forall i, j :: 0 <= i < j < |IncompleteFirst(s, complete)| ==>
      IncompleteFirst(s, complete)[i].1 != IncompleteFirst(s, complete)[j].1
  {
    var r := IncompleteFirst(s, complete);
    var pending := Filter(s, Not(complete));
    var done := Filter(s, complete);
    IncompleteFirstItems(s, complete);
    FilterKeepsDistinct(s, Not(complete));
    FilterKeepsDistinct(s, complete);
    ConcatDistinct(pending, done, complete);
    DistinctItemsHaveDistinctIndices(s, r);
  }

  /** Pairs whose indices point at their items, with no item twice, have no index twice. */
  lemma DistinctItemsHaveDistinctIndices<T>(s: seq<T>, r: seq<(T, nat)>)
    requires forall k :: 0 <= k < |r| ==> r[k].1 < |s| && s[r[k].1] == r[k].0
    requires forall i, j :: 0 <= i < j < |Items(r)| ==> Items(r)[i] != Items(r)[j]
    ensures forall i, j :: 0 <= i < j < |r| ==> r[i].1 != r[j].1
  {
    var items := Items(r);
    forall i, j | 0 <= i < j < |r| ensures r[i].1 != r[j].1 {
      assert items[i] == r[i].0 && items[j] == r[j].0;
    }
  }

  /** Joining a duplicate-free part that fails `p` to one that meets it gives a duplicate-free whole. */
  lemma ConcatDistinct<T>(a: seq<T>, b: seq<T>, p: T -> bool)
    requires forall i, j :: 0 <= i < j < |a| ==> a[i] != a[j]
    requires forall i, j :: 0 <= i < j < |b| ==> b[i] != b[j]
    requires forall i :: 0 <= i < |a| ==> Not(p)(a[i])
    requires forall j :: 0 <= j < |b| ==> p(b[j])
    ensures forall i, j :: 0 <= i < j < |a + b| ==> (a + b)[i] != (a + b)[j]
  {
    forall i, j | 0 <= i < j < |a + b| ensures (a + b)[i] != (a + b)[j] {
      if j < |a| {
        assert (a + b)[i] == a[i] && (a + b)[j] == a[j];
      } else if i < |a| {
        assert !p(a[i]) && p(b[j - |a|]);
      } else {
        assert (a + b)[i] == b[i - |a|] && (a + b)[j] == b[j - |a|];
      }
    }
  }

  /** Filtering keeps a duplicate-free sequence duplicate-free. */
  lemma {:induction false} FilterKeepsDistinct<T>(s: seq<T>, p: T -> bool)
    requires forall i, j :: 0 <= i < j < |s| ==> s[i] != s[j]
    ensures forall i, j :: 0 <= i < j < |Filter(s, p)| ==> Filter(s, p)[i] != Filter(s, p)[j]
  {
    if |s| > 0 {
      var tail := s[1..];
      assert forall i, j :: 0 <= i < j < |tail| ==> tail[i] == s[i + 1] && tail[j] == s[j + 1];
      FilterKeepsDistinct(tail, p);
      FilterMembers(tail, p);
      var rest := Filter(tail, p);
      var r := Filter(s, p);
      if p(s[0]) {
        assert r == [s[0]] + rest;
        forall i, j | 0 <= i < j < |r| ensures r[i] != r[j] {
          if i == 0 {
            assert rest[j - 1] in tail;
            var m :| 0 <= m < |tail| && tail[m] == rest[j - 1];
            assert s[0] != s[m + 1];
          } else {
            assert r[i] == rest[i - 1] && r[j] == rest[j - 1];
          }
        }
      } else {
        assert r == rest;
      }
    }
  }

  /** The block `{ |list| list_complete?(list) }`. */
  const IsListComplete: TodoList -> bool := (l: TodoList) => ListComplete(l)

  /** `sort_lists(lists)`: complete lists last, each yielded with its index in `lists`. */
  function SortLists(lists: seq<TodoList>): (r: seq<(TodoList, nat)>)
    ensures multiset(Items(r)) == multiset(lists)
    ensures forall k :: 0 <= k < |r| ==> r[k].1 < |lists| && lists[r[k].1] == r[k].0
    ensures forall i, j :: 0 <= i < j < |r| && ListComplete(r[i].0) ==> ListComplete(r[j].0)
  {
    IncompleteFirstIsPermutation(lists, IsListComplete);
    IncompleteFirst(lists, IsListComplete)
  }

  /** `sort_todos(todos)`: completed todos last, each yielded with its index in `todos`. */
  function SortTodos(todos: seq<Todo>): (r: seq<(Todo, nat)>)
    ensures multiset(Items(r)) == multiset(todos)
    ensures forall k :: 0 <= k < |r| ==> r[k].1 < |todos| && todos[r[k].1] == r[k].0
    ensures forall i, j :: 0 <= i < j < |r| && r[i].0.completed ==> r[j].0.completed
  {
    IncompleteFirstIsPermutation(todos, IsCompleted);
    IncompleteFirst(todos, IsCompleted)
  }

  /** The open todos come first, and there are exactly `todos_remaining_count` of them. */
  lemma SortTodosSplitsAtRemaining(list: TodoList)
    ensures var r := SortTodos(list.todos); var n := TodosRemainingCount(list);
      && n <= |r|
      && (forall k :: 0 <= k < n ==> !r[k].0.completed)
      && forall k :: n <= k < |r| ==> r[k].0.completed
  {
    IncompleteFirstItems(list.todos, IsCompleted);
    FilterSplits(list.todos, IsCompleted);
  }

  // ---------------------------------------------------------------------------
  // Name validation

  /** What `error_for_list_name` / `error_for_todo` report; Ruby returns the message, or nil. */
  datatype NameError = ListNameLength | ListNameTaken | TodoNameLength

  function Message(e: NameError): string
  {
    match e
    case ListNameLength => "List name must be between 1 and 100 characters."
    case ListNameTaken => "List name must be unique."
    case TodoNameLength => "Todo must be between 1 and 100 characters."
  }

  /** `(1..100).cover? name.size`. */
  predicate ValidNameLength(name: string)
  {
    1 <= |name| <= 100
  }

  /** `error_for_list_name(name)` against the lists in the session. */
  function ErrorForListName(name: string, lists: seq<TodoList>): (r: Option<NameError>)
    ensures r == Some(ListNameLength) <==> !ValidNameLength(name)
    ensures r == Some(ListNameTaken) <==> ValidNameLength(name) && exists k :: 0 <= k < |lists| && lists[k].name == name
    ensures r == None <==> ValidNameLength(name) && forall k :: 0 <= k < |lists| ==> lists[k].name != name
  {
    if !ValidNameLength(name) then Some(ListNameLength)
    else if exists k :: 0 <= k < |lists| && lists[k].name == name then Some(ListNameTaken)
    else None
  }

  /** `error_for_todo(name)`. */
  function ErrorForTodo(name: string): (r: Option<NameError>)
    ensures r == None <==> ValidNameLength(name)
    ensures r != None ==> r == Some(TodoNameLength)
  {
    if !ValidNameLength(name) then Some(TodoNameLength) else None
  }

  /** The update form re-checks uniqueness against every list, so keeping a list's own name is rejected. */
  lemma KeepingOwnNameIsRejected(lists: seq<TodoList>, k: nat)
    requires k < |lists| && ValidNameLength(lists[k].name)
    ensures ErrorForListName(lists[k].name, lists) == Some(ListNameTaken)
  {
  }

  // ---------------------------------------------------------------------------
  // Position addressing with Ruby's Array#[] and Array#delete_at

  /** The position Ruby reads for index `i` of an `n`-element array: negative indices count from the end. */
  function RubyIndex(i: int, n: nat): (r: Option<nat>)
    ensures r.Some? <==> -(n as int) <= i < n
    ensures r.Some? ==> r.value < n && (r.value == i || r.value == i + n)
  {
    if 0 <= i < n then Some(i) else if -(n as int) <= i < 0 then Some(i + n) else None
  }

  predicate Resolves(i: int, n: nat)
  {
    RubyIndex(i, n).Some?
  }

  /** `s.delete_at(i)`: removes the element at position `i`, or changes nothing when `i` is out of range. */
  function DeleteAt<T>(s: seq<T>, i: int): (r: seq<T>)
    ensures !Resolves(i, |s|) ==> r == s
    ensures Resolves(i, |s|) ==> var k := RubyIndex(i, |s|).value;
      && |r| == |s| - 1
      && (forall m :: 0 <= m < k ==> r[m] == s[m])
      && forall m :: k <= m < |r| ==> r[m] == s[m + 1]
  {
    match RubyIndex(i, |s|)
    case None => s
    case Some(k) => s[..k] + s[k + 1..]
  }

  // ---------------------------------------------------------------------------
  // The order in which the handlers keep session[:lists]

  /** List names are valid and pairwise distinct, and every todo name is valid. */
  predicate WellFormed(lists: seq<TodoList>)
  {
    && (forall k :: 0 <= k < |lists| ==> ValidNameLength(lists[k].name))
    && (forall i, j :: 0 <= i < j < |lists| ==> lists[i].name != lists[j].name)
    && forall k, m :: 0 <= k < |lists| && 0 <= m < |lists[k].todos| ==> ValidNameLength(lists[k].todos[m].name)
  }

  /** POST /lists: append `{ name: list_name, todos: [] }` when the name passes validation. */
  function CreateListEffect(lists: seq<TodoList>, listName: string): (r: seq<TodoList>)
    ensures ErrorForListName(listName, lists).None? ==>
      |r| == |lists| + 1 && r[..|lists|] == lists && r[|lists|] == TodoList(listName, [])
    ensures ErrorForListName(listName, lists).Some? ==> r == lists
  {
    if ErrorForListName(listName, lists).None? then lists + [TodoList(listName, [])] else lists
  }

  /** POST /lists/:id: rename the list at position `id` when the new name passes validation. */
  function UpdateListEffect(lists: seq<TodoList>, id: int, listName: string): (r: seq<TodoList>)
    requires ErrorForListName(listName, lists).Some? || Resolves(id, |lists|)
    ensures |r| == |lists|
    ensures ErrorForListName(listName, lists).Some? ==> r == lists
    ensures ErrorForListName(listName, lists).None? ==> var k := RubyIndex(id, |lists|).value;
      && r[k].name == listName && r[k].todos == lists[k].todos
      && forall m :: 0 <= m < |lists| && m != k ==> r[m] == lists[m]
  {
    if ErrorForListName(listName, lists).Some? then lists
    else
      var k := RubyIndex(id, |lists|).value;
      lists[k := lists[k].(name := listName)]
  }

  /** POST /lists/:id/delete. */
  function DeleteListEffect(lists: seq<TodoList>, id: int): (r: seq<TodoList>)
  {
    DeleteAt(lists, id)
  }

  /** POST /lists/:list_id/todos: append `{ name: text, completed: false }` when the text passes validation. */
  function CreateTodoEffect(lists: seq<TodoList>, listIndex: int, text: string): (r: seq<TodoList>)
    requires ErrorForTodo(text).Some? || Resolves(listIndex, |lists|)
    ensures |r| == |lists|
    ensures ErrorForTodo(text).Some? ==> r == lists
    ensures ErrorForTodo(text).None? ==> var k := RubyIndex(listIndex, |lists|).value;
      && r[k].name == lists[k].name && r[k].todos == lists[k].todos + [Todo(text, false)]
      && forall m :: 0 <= m < |lists| && m != k ==> r[m] == lists[m]
  {
    if ErrorForTodo(text).Some? then lists
    else
      var k := RubyIndex(listIndex, |lists|).value;
      lists[k := lists[k].(todos := lists[k].todos + [Todo(text, false)])]
  }

  /** POST /lists/:list_id/todos/:todo_id/delete: `@list[:todos].delete_at(@todo_id)`. */
  function DeleteTodoEffect(lists: seq<TodoList>, listIndex: int, todoIndex: int): (r: seq<TodoList>)
    requires Resolves(listIndex, |lists|)
    ensures |r| == |lists|
    ensures var k := RubyIndex(listIndex, |lists|).value;
      && r[k].name == lists[k].name && r[k].todos == DeleteAt(lists[k].todos, todoIndex)
      && forall m :: 0 <= m < |lists| && m != k ==> r[m] == lists[m]
  {
    var k := RubyIndex(listIndex, |lists|).value;
    lists[k := lists[k].(todos := DeleteAt(lists[k].todos, todoIndex))]
  }

  /** The list at `listIndex` exists and has a todo at `todoIndex`. */
  predicate TodoResolves(lists: seq<TodoList>, listIndex: int, todoIndex: int)
  {
    Resolves(listIndex, |lists|) && Resolves(todoIndex, |lists[RubyIndex(listIndex, |lists|).value].todos|)
  }

  /** POST /lists/:list_id/todos/:todo_id: the flag becomes `params[:completed] == "true"`. */
  function UpdateTodoEffect(lists: seq<TodoList>, listIndex: int, todoIndex: int, completedParam: Option<string>): (r: seq<TodoList>)
    requires TodoResolves(lists, listIndex, todoIndex)
    ensures |r| == |lists|
    ensures var k := RubyIndex(listIndex, |lists|).value; var j := RubyIndex(todoIndex, |lists[k].todos|).value;
      && r[k].name == lists[k].name && |r[k].todos| == |lists[k].todos|
      && r[k].todos[j].name == lists[k].todos[j].name
      && (r[k].todos[j].completed <==> completedParam == Some("true"))
      && (forall i :: 0 <= i < |lists[k].todos| && i != j ==> r[k].todos[i] == lists[k].todos[i])
      && forall m :: 0 <= m < |lists| && m != k ==> r[m] == lists[m]
  {
    var k := RubyIndex(listIndex, |lists|).value;
    var todos := lists[k].todos;
    var j := RubyIndex(todoIndex, |todos|).value;
    lists[k := lists[k].(todos := todos[j := todos[j].(completed := completedParam == Some("true"))])]
  }

  /** Every todo with its completed flag set (`todos.each { |todo| todo[:completed] = true }`). */
  function AllCompleted(todos: seq<Todo>): (r: seq<Todo>)
    ensures |r| == |todos|
    ensures forall j :: 0 <= j < |r| ==> r[j].completed && r[j].name == todos[j].name
  {
    seq(|todos|, j requires 0 <= j < |todos| => todos[j].(completed := true))
  }

  /** POST /lists/:list_id/complete_all. */
  function CompleteAllEffect(lists: seq<TodoList>, listIndex: int): (r: seq<TodoList>)
    requires Resolves(listIndex, |lists|)
    ensures |r| == |lists|
    ensures var k := RubyIndex(listIndex, |lists|).value;
      && r[k].name == lists[k].name && r[k].todos == AllCompleted(lists[k].todos)
      && forall m :: 0 <= m < |lists| && m != k ==> r[m] == lists[m]
  {
    var k := RubyIndex(listIndex, |lists|).value;
    lists[k := lists[k].(todos := AllCompleted(lists[k].todos))]
  }

  // ---------------------------------------------------------------------------
  // session[:lists] and the POST handlers

  class Session {
    /** `session[:lists]`. */
    var lists: seq<TodoList>

    /** `before do session[:lists] ||= [] end`. */
    constructor (stored: Option<seq<TodoList>>)
      ensures lists == stored.GetOr([])
      ensures stored == None ==> WellFormed(lists)
    {
      lists := stored.GetOr([]);
    }

    /** POST /lists; the result is the error reported to the user, or None on success. */
    method CreateList(listName: string) returns (error: Option<NameError>)
      modifies this
      ensures error == ErrorForListName(listName, old(lists))
      ensures lists == CreateListEffect(old(lists), listName)
      ensures old(WellFormed(lists)) ==> WellFormed(lists)
    {
      if WellFormed(lists) {
        CreateListKeepsWellFormed(lists, listName);
      }
      error := ErrorForListName(listName, lists);
      if error.None? {
        lists := lists + [TodoList(listName, [])];
      }
    }

    /** POST /lists/:id. */
    method UpdateList(id: int, listName: string) returns (error: Option<NameError>)
      requires ErrorForListName(listName, lists).Some? || Resolves(id, |lists|)
      modifies this
      ensures error == ErrorForListName(listName, old(lists))
      ensures lists == UpdateListEffect(old(lists), id, listName)
      ensures old(WellFormed(lists)) ==> WellFormed(lists)
    {
      if WellFormed(lists) {
        UpdateListKeepsWellFormed(lists, id, listName);
      }
      error := ErrorForListName(listName, lists);
      if error.None? {
        var k := RubyIndex(id, |lists|).value;
        lists := lists[k := lists[k].(name := listName)];
      }
    }

    /** POST /lists/:id/delete. */
    method DeleteList(id: int)
      modifies this
      ensures lists == DeleteListEffect(old(lists), id)
      ensures old(WellFormed(lists)) ==> WellFormed(lists)
    {
      if WellFormed(lists) {
        DeleteListKeepsWellFormed(lists, id);
      }
      lists := DeleteAt(lists, id);
    }

    /** POST /lists/:list_id/todos. */
    method CreateTodo(listIndex: int, text: string) returns (error: Option<NameError>)
      requires ErrorForTodo(text).Some? || Resolves(listIndex, |lists|)
      modifies this
      ensures error == ErrorForTodo(text)
      ensures lists == CreateTodoEffect(old(lists), listIndex, text)
      ensures old(WellFormed(lists)) ==> WellFormed(lists)
    {
      if WellFormed(lists) {
        CreateTodoKeepsWellFormed(lists, listIndex, text);
      }
      error := ErrorForTodo(text);
      if error.None? {
        var k := RubyIndex(listIndex, |lists|).value;
        lists := lists[k := lists[k].(todos := lists[k].todos + [Todo(text, false)])];
      }
    }

    /** POST /lists/:list_id/todos/:todo_id/delete. */
    method DeleteTodo(listIndex: int, todoIndex: int)
      requires Resolves(listIndex, |lists|)
      modifies this
      ensures lists == DeleteTodoEffect(old(lists), listIndex, todoIndex)
      ensures old(WellFormed(lists)) ==> WellFormed(lists)
    {
      if WellFormed(lists) {
        DeleteTodoKeepsWellFormed(lists, listIndex, todoIndex);
      }
      var k := RubyIndex(listIndex, |lists|).value;
      lists := lists[k := lists[k].(todos := DeleteAt(lists[k].todos, todoIndex))];
    }

    /** POST /lists/:list_id/todos/:todo_id. */
    method UpdateTodo(listIndex: int, todoIndex: int, completedParam: Option<string>)
      requires TodoResolves(lists, listIndex, todoIndex)
      modifies this
      ensures lists == UpdateTodoEffect(old(lists), listIndex, todoIndex, completedParam)
      ensures old(WellFormed(lists)) ==> WellFormed(lists)
    {
      if WellFormed(lists) {
        UpdateTodoKeepsWellFormed(lists, listIndex, todoIndex, completedParam);
      }
      var isCompleted := completedParam == Some("true");
      var k := RubyIndex(listIndex, |lists|).value;
      var todos := lists[k].todos;
      var j := RubyIndex(todoIndex, |todos|).value;
      lists := lists[k := lists[k].(todos := todos[j := todos[j].(completed := isCompleted)])];
    }

    /** POST /lists/:list_id/complete_all: `@list[:todos].each { |todo| todo[:completed] = true }`. */
    method CompleteAll(listIndex: int)
      requires Resolves(listIndex, |lists|)
      modifies this
      ensures lists == CompleteAllEffect(old(lists), listIndex)
      ensures old(WellFormed(lists)) ==> WellFormed(lists)
    {
      if WellFormed(lists) {
        CompleteAllKeepsWellFormed(lists, listIndex);
      }
      var k := RubyIndex(listIndex, |lists|).value;
      var todos := lists[k].todos;
      var j := 0;
      while j < |todos|
        invariant 0 <= j <= |todos| == |lists[k].todos|
        invariant forall i :: 0 <= i < j ==> todos[i] == lists[k].todos[i].(completed := true)
        invariant forall i :: j <= i < |todos| ==> todos[i] == lists[k].todos[i]
      {
        todos := todos[j := todos[j].(completed := true)];
        j := j + 1;
      }
      assert todos == AllCompleted(lists[k].todos);
      lists := lists[k := lists[k].(todos := todos)];
    }
  }

  // ---------------------------------------------------------------------------
  // Validation keeps session[:lists] well formed

  lemma CreateListKeepsWellFormed(lists: seq<TodoList>, listName: string)
    requires WellFormed(lists)
    ensures WellFormed(CreateListEffect(lists, listName))
  {
    var r := CreateListEffect(lists, listName);
    if ErrorForListName(listName, lists).None? {
      assert forall k :: 0 <= k < |lists| ==> r[k] == lists[k];
    }
  }

  lemma UpdateListKeepsWellFormed(lists: seq<TodoList>, id: int, listName: string)
    requires WellFormed(lists)
    requires ErrorForListName(listName, lists).Some? || Resolves(id, |lists|)
    ensures WellFormed(UpdateListEffect(lists, id, listName))
  {
  }

  lemma DeleteListKeepsWellFormed(lists: seq<TodoList>, id: int)
    requires WellFormed(lists)
    ensures WellFormed(DeleteListEffect(lists, id))
  {
    var r := DeleteListEffect(lists, id);
    if Resolves(id, |lists|) {
      var k := RubyIndex(id, |lists|).value;
      forall i, j | 0 <= i < j < |r| ensures r[i].name != r[j].name {
        var i' := if i < k then i else i + 1;
        var j' := if j < k then j else j + 1;
        assert r[i] == lists[i'] && r[j] == lists[j'];
      }
      forall m | 0 <= m < |r| ensures r[m] == lists[if m < k then m else m + 1] {
      }
    }
  }

  lemma CreateTodoKeepsWellFormed(lists: seq<TodoList>, listIndex: int, text: string)
    requires WellFormed(lists)
    requires ErrorForTodo(text).Some? || Resolves(listIndex, |lists|)
    ensures WellFormed(CreateTodoEffect(lists, listIndex, text))
  {
    var r := CreateTodoEffect(lists, listIndex, text);
    if ErrorForTodo(text).None? {
      var k := RubyIndex(listIndex, |lists|).value;
      assert forall m :: 0 <= m < |lists[k].todos| ==> r[k].todos[m] == lists[k].todos[m];
    }
  }

  lemma DeleteTodoKeepsWellFormed(lists: seq<TodoList>, listIndex: int, todoIndex: int)
    requires WellFormed(lists)
    requires Resolves(listIndex, |lists|)
    ensures WellFormed(DeleteTodoEffect(lists, listIndex, todoIndex))
  {
    var r := DeleteTodoEffect(lists, listIndex, todoIndex);
    var k := RubyIndex(listIndex, |lists|).value;
    var todos := lists[k].todos;
    if Resolves(todoIndex, |todos|) {
      var j := RubyIndex(todoIndex, |todos|).value;
      forall m | 0 <= m < |r[k].todos| ensures ValidNameLength(r[k].todos[m].name) {
        assert r[k].todos[m] == todos[if m < j then m else m + 1];
      }
    }
  }

  lemma UpdateTodoKeepsWellFormed(lists: seq<TodoList>, listIndex: int, todoIndex: int, completedParam: Option<string>)
    requires WellFormed(lists)
    requires TodoResolves(lists, listIndex, todoIndex)
    ensures WellFormed(UpdateTodoEffect(lists, listIndex, todoIndex, completedParam))
  {
  }

  lemma CompleteAllKeepsWellFormed(lists: seq<TodoList>, listIndex: int)
    requires WellFormed(lists)
    requires Resolves(listIndex, |lists|)
    ensures WellFormed(CompleteAllEffect(lists, listIndex))
  {
  }

  // ---------------------------------------------------------------------------
  // Properties of the handlers

  /** Complete-all leaves the targeted list complete exactly when it has todos, with nothing remaining. */
  lemma CompleteAllCompletesList(lists: seq<TodoList>, listIndex: int)
    requires Resolves(listIndex, |lists|)
    ensures var k := RubyIndex(listIndex, |lists|).value; var after := CompleteAllEffect(lists, listIndex)[k];
      && TodosRemainingCount(after) == 0
      && TodosCount(after) == TodosCount(lists[k])
      && (ListComplete(after) <==> |lists[k].todos| > 0)
  {
  }

  /** Complete-all twice is complete-all once. */
  lemma CompleteAllIsIdempotent(lists: seq<TodoList>, listIndex: int)
    requires Resolves(listIndex, |lists|)
    ensures CompleteAllEffect(CompleteAllEffect(lists, listIndex), listIndex) == CompleteAllEffect(lists, listIndex)
  {
    var once := CompleteAllEffect(lists, listIndex);
    var k := RubyIndex(listIndex, |lists|).value;
    assert AllCompleted(once[k].todos) == once[k].todos;
  }

  /**
   * Checking off an open todo lowers the remaining count by one, and the list
   * becomes complete exactly when that todo was the last open one.
   */
  lemma CheckingOffOpenTodo(lists: seq<TodoList>, listIndex: int, todoIndex: int)
    requires TodoResolves(lists, listIndex, todoIndex)
    requires !lists[RubyIndex(listIndex, |lists|).value].todos[RubyIndex(todoIndex, |lists[RubyIndex(listIndex, |lists|).value].todos|).value].completed
    ensures var k := RubyIndex(listIndex, |lists|).value; var after := UpdateTodoEffect(lists, listIndex, todoIndex, Some("true"))[k];
      && TodosRemainingCount(after) == TodosRemainingCount(lists[k]) - 1
      && (ListComplete(after) <==> TodosRemainingCount(lists[k]) == 1)
  {
    var k := RubyIndex(listIndex, |lists|).value;
    var j := RubyIndex(todoIndex, |lists[k].todos|).value;
    var after := UpdateTodoEffect(lists, listIndex, todoIndex, Some("true"))[k];
    assert after == lists[k].(todos := lists[k].todos[j := lists[k].todos[j].(completed := true)]);
    RemainingAfterUpdate(lists[k], j, true);
  }

  /**
   * The worked example: a list "Groceries" with "Milk" and "Eggs"; checking
   * off "Milk" leaves one open todo, and checking off "Eggs" completes it.
   */
  lemma GroceriesExample()
    ensures var s1 := CreateListEffect([], "Groceries");
      var s2 := CreateTodoEffect(CreateTodoEffect(s1, 0, "Milk"), 0, "Eggs");
      var s3 := UpdateTodoEffect(s2, 0, 0, Some("true"));
      var s4 := UpdateTodoEffect(s3, 0, 1, Some("true"));
      && TodosCount(s3[0]) == 2 && TodosRemainingCount(s3[0]) == 1 && !ListComplete(s3[0])
      && ListComplete(s4[0])
  {
    var s1 := CreateListEffect([], "Groceries");
    assert s1 == [TodoList("Groceries", [])];
    assert RubyIndex(0, 1) == Some(0);
    assert ErrorForTodo("Milk") == None && ErrorForTodo("Eggs") == None;
    var milk := CreateTodoEffect(s1, 0, "Milk");
    assert |milk| == 1;
    assert milk[0].name == "Groceries";
    assert milk[0].todos == [Todo("Milk", false)];
    assert milk == [TodoList("Groceries", [Todo("Milk", false)])];
    var s2 := CreateTodoEffect(milk, 0, "Eggs");
    assert s2[0].todos == [Todo("Milk", false)] + [Todo("Eggs", false)];
    assert |s2| == 1 && s2[0].name == "Groceries";
    assert s2[0] == TodoList("Groceries", [Todo("Milk", false), Todo("Eggs", false)]);
    assert s2 == [TodoList("Groceries", [Todo("Milk", false), Todo("Eggs", false)])];
    var s3 := UpdateTodoEffect(s2, 0, 0, Some("true"));
    assert RubyIndex(0, 2) == Some(0) && RubyIndex(1, 2) == Some(1);
    assert s3[0].todos[0] == Todo("Milk", true) && s3[0].todos[1] == Todo("Eggs", false);
    assert s3[0].todos == [Todo("Milk", true), Todo("Eggs", false)];
    assert s3 == [TodoList("Groceries", [Todo("Milk", true), Todo("Eggs", false)])];
    CheckingOffOpenTodo(s2, 0, 0);
    CheckingOffOpenTodo(s3, 0, 1);
  }
}
