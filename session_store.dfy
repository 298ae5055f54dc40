/**
 * The session-backed store of todo lists (class SessionPersistence).
 *
 * The store owns the ordered collection `session[:lists]`. Each list record
 * carries an integer list id, a name and an ordered sequence of todo records;
 * each todo record carries an integer id, a name and a completed flag. Ruby
 * mutates the found hashes in place; here the collection is a `seq` field of
 * a class, and every state-changing method replaces it by a function of the
 * old collection defined below, about which the invariants are proved.
 */
module SessionStore {
  import opened Wrappers
  import opened Seqs

  /** A todo record `{ id:, name:, completed: }`. */
  datatype Todo = Todo(id: int, name: string, completed: bool)

  /** A list record `{ list_id:, name:, todos: }`. */
  datatype TodoList = TodoList(listId: int, name: string, todos: seq<Todo>)

  // ---------------------------------------------------------------------------
  // Invariants the store maintains

  /** No two lists share a list id. */
  predicate UniqueListIds(lists: seq<TodoList>)
  {
    forall i, j :: 0 <= i < j < |lists| ==> lists[i].listId != lists[j].listId
  }

  /** No two todos of one list share an id (ids are unique per list, not globally). */
  predicate UniqueTodoIds(todos: seq<Todo>)
  {
    forall i, j :: 0 <= i < j < |todos| ==> todos[i].id != todos[j].id
  }

  predicate WellFormed(lists: seq<TodoList>)
  {
    && UniqueListIds(lists)
    && forall k :: 0 <= k < |lists| ==> UniqueTodoIds(lists[k].todos)
  }

  // ---------------------------------------------------------------------------
  // Id generation: `(records.map { |r| r[:id] }.max || 0) + 1`

  /** The largest element of a non-empty sequence (Ruby's `max`). */
  function MaxOf(ids: seq<int>): (m: int)
    requires |ids| > 0
    ensures m in ids
    ensures forall k :: 0 <= k < |ids| ==> ids[k] <= m
  {
    if |ids| == 1 then ids[0]
    else
      var rest := MaxOf(ids[1..]);
      if ids[0] > rest then ids[0] else rest
  }

  /** `(ids.max || 0) + 1`. */
  function NextId(ids: seq<int>): int
  {
    var max := if |ids| == 0 then 0 else MaxOf(ids);
    max + 1
  }

  /** The id `create_new_list` gives a new list: 1 for an empty store, else one more than the largest list id. */
  function NextListId(lists: seq<TodoList>): (r: int)
    ensures |lists| == 0 ==> r == 1
    ensures forall k :: 0 <= k < |lists| ==> lists[k].listId < r
    ensures |lists| > 0 ==> exists k :: 0 <= k < |lists| && lists[k].listId == r - 1
  {
    var ids := seq(|lists|, k requires 0 <= k < |lists| => lists[k].listId);
    assert forall k :: 0 <= k < |lists| ==> ids[k] == lists[k].listId;
    NextId(ids)
  }

  /** The id `create_new_todo` gives a new todo: 1 for an empty list, else one more than the largest todo id in it. */
  function NextTodoId(todos: seq<Todo>): (r: int)
    ensures |todos| == 0 ==> r == 1
    ensures forall k :: 0 <= k < |todos| ==> todos[k].id < r
    ensures |todos| > 0 ==> exists k :: 0 <= k < |todos| && todos[k].id == r - 1
  {
    var ids := seq(|todos|, k requires 0 <= k < |todos| => todos[k].id);
    assert forall k :: 0 <= k < |todos| ==> ids[k] == todos[k].id;
    NextId(ids)
  }

  // ---------------------------------------------------------------------------
  // Lookups: Ruby `find` with an id-comparing block

  /** The block `{ |list| list[:list_id] == list_id }`. */
  function HasListId(listId: int): TodoList -> bool
  {
    (l: TodoList) => l.listId == listId
  }

  /** The block `{ |todo| todo[:id] == target }`; an integer id never equals `nil` (None). */
  function HasTodoId(target: Option<int>): Todo -> bool
  {
    (t: Todo) => Some(t.id) == target
  }

  /** Position of the first list carrying `listId`, or None when there is none. */
  function FindListIndex(lists: seq<TodoList>, listId: int): (r: Option<nat>)
    ensures r.Some? ==> r.value < |lists| && lists[r.value].listId == listId
    ensures r.Some? ==> forall j :: 0 <= j < r.value ==> lists[j].listId != listId
    ensures r.None? <==> forall k :: 0 <= k < |lists| ==> lists[k].listId != listId
  {
    FindFirst(lists, HasListId(listId))
  }

  /** Position of the first todo carrying `todoId`, or None when there is none. */
  function FindTodoIndex(todos: seq<Todo>, todoId: int): (r: Option<nat>)
    ensures r.Some? ==> r.value < |todos| && todos[r.value].id == todoId
    ensures r.Some? ==> forall j :: 0 <= j < r.value ==> todos[j].id != todoId
    ensures r.None? <==> forall k :: 0 <= k < |todos| ==> todos[k].id != todoId
  {
    FindFirst(todos, HasTodoId(Some(todoId)))
  }

  /** The list a call on `listId` dereferences exists. */
  predicate ListExists(lists: seq<TodoList>, listId: int)
  {
    FindListIndex(lists, listId).Some?
  }

  // ---------------------------------------------------------------------------
  // The new collection after each operation

  /** `lists << { list_id: next_list_id(lists), name: list_name, todos: [] }`. */
  function WithNewList(lists: seq<TodoList>, listName: string): (r: seq<TodoList>)
    ensures |r| == |lists| + 1 && r[..|lists|] == lists
    ensures r[|lists|].name == listName && r[|lists|].todos == []
    ensures forall k :: 0 <= k < |lists| ==> lists[k].listId < r[|lists|].listId
  {
    lists + [TodoList(NextListId(lists), listName, [])]
  }

  /** `lists.reject! { |list| list[:list_id] == list_id }`. */
  function WithoutList(lists: seq<TodoList>, listId: int): (r: seq<TodoList>)
    ensures forall k :: 0 <= k < |r| ==> r[k].listId != listId && r[k] in lists
    ensures forall k :: 0 <= k < |lists| && lists[k].listId != listId ==> lists[k] in r
    ensures FindListIndex(r, listId) == None
  {
    FilterMembers(lists, Not(HasListId(listId)));
    Filter(lists, Not(HasListId(listId)))
  }

  /** `find_list(list_id)[:name] = new_name`. */
  function Renamed(lists: seq<TodoList>, listId: int, newName: string): (r: seq<TodoList>)
    requires ListExists(lists, listId)
    ensures |r| == |lists|
    ensures var k := FindListIndex(lists, listId).value;
      && r[k].name == newName && r[k].listId == listId && r[k].todos == lists[k].todos
      && forall m :: 0 <= m < |lists| && m != k ==> r[m] == lists[m]
  {
    var k := FindListIndex(lists, listId).value;
    lists[k := lists[k].(name := newName)]
  }

  /** `list[:todos] << { id: next_todo_id(list[:todos]), name: todo_name, completed: false }`. */
  function WithNewTodo(lists: seq<TodoList>, listId: int, todoName: string): (r: seq<TodoList>)
    requires ListExists(lists, listId)
    ensures |r| == |lists|
    ensures var k := FindListIndex(lists, listId).value; var n := |lists[k].todos|;
      && r[k].listId == listId && r[k].name == lists[k].name
      && |r[k].todos| == n + 1 && r[k].todos[..n] == lists[k].todos
      && r[k].todos[n].name == todoName && !r[k].todos[n].completed
      && (forall j :: 0 <= j < n ==> lists[k].todos[j].id < r[k].todos[n].id)
      && forall m :: 0 <= m < |lists| && m != k ==> r[m] == lists[m]
  {
    var k := FindListIndex(lists, listId).value;
    var todos := lists[k].todos;
    lists[k := lists[k].(todos := todos + [Todo(NextTodoId(todos), todoName, false)])]
  }

  /** `list[:todos].reject! { |todo| todo[:id] == target }`, where `target` may be `nil`. */
  function WithoutTodo(lists: seq<TodoList>, listId: int, target: Option<int>): (r: seq<TodoList>)
    requires ListExists(lists, listId)
    ensures |r| == |lists|
    ensures var k := FindListIndex(lists, listId).value;
      && r[k].listId == listId && r[k].name == lists[k].name
      && (forall j :: 0 <= j < |r[k].todos| ==> Some(r[k].todos[j].id) != target && r[k].todos[j] in lists[k].todos)
      && (forall j :: 0 <= j < |lists[k].todos| && Some(lists[k].todos[j].id) != target ==> lists[k].todos[j] in r[k].todos)
      && forall m :: 0 <= m < |lists| && m != k ==> r[m] == lists[m]
  {
    var k := FindListIndex(lists, listId).value;
    FilterMembers(lists[k].todos, Not(HasTodoId(target)));
    lists[k := lists[k].(todos := Filter(lists[k].todos, Not(HasTodoId(target))))]
  }

  /** `list[:todos].find { |t| t[:id] == todo_id }[:completed] = new_status`. */
  function WithTodoStatus(lists: seq<TodoList>, listId: int, todoId: int, newStatus: bool): (r: seq<TodoList>)
    requires ListExists(lists, listId)
    requires FindTodoIndex(lists[FindListIndex(lists, listId).value].todos, todoId).Some?
    ensures |r| == |lists|
    ensures var k := FindListIndex(lists, listId).value; var j := FindTodoIndex(lists[k].todos, todoId).value;
      && r[k].listId == listId && r[k].name == lists[k].name && |r[k].todos| == |lists[k].todos|
      && r[k].todos[j].id == todoId && r[k].todos[j].name == lists[k].todos[j].name
      && r[k].todos[j].completed == newStatus
      && (forall i :: 0 <= i < |lists[k].todos| && i != j ==> r[k].todos[i] == lists[k].todos[i])
      && forall m :: 0 <= m < |lists| && m != k ==> r[m] == lists[m]
  {
    var k := FindListIndex(lists, listId).value;
    var todos := lists[k].todos;
    var j := FindTodoIndex(todos, todoId).value;
    lists[k := lists[k].(todos := todos[j := todos[j].(completed := newStatus)])]
  }

  /** Every todo with its completed flag set (`todos.each { |todo| todo[:completed] = true }`). */
  function AllCompleted(todos: seq<Todo>): (r: seq<Todo>)
    ensures |r| == |todos|
    ensures forall j :: 0 <= j < |r| ==> r[j].completed && r[j].id == todos[j].id && r[j].name == todos[j].name
  {
    seq(|todos|, j requires 0 <= j < |todos| => todos[j].(completed := true))
  }

  /** The collection after `mark_all_todos_as_completed(list_id)`. */
  function WithAllCompleted(lists: seq<TodoList>, listId: int): (r: seq<TodoList>)
    requires ListExists(lists, listId)
    ensures |r| == |lists|
    ensures var k := FindListIndex(lists, listId).value;
      && r[k].listId == listId && r[k].name == lists[k].name
      && r[k].todos == AllCompleted(lists[k].todos)
      && forall m :: 0 <= m < |lists| && m != k ==> r[m] == lists[m]
  {
    var k := FindListIndex(lists, listId).value;
    lists[k := lists[k].(todos := AllCompleted(lists[k].todos))]
  }

  // ---------------------------------------------------------------------------
  // The store

  class SessionPersistence {
    /** `@session[:lists]`. */
    var lists: seq<TodoList>

    predicate Valid()
      reads this
    {
      WellFormed(lists)
    }

    /** `@session[:lists] ||= []`: keep the lists already in the session, or start empty. */
    constructor (stored: Option<seq<TodoList>>)
      ensures lists == stored.GetOr([])
      ensures stored == None ==> Valid()
    {
      lists := stored.GetOr([]);
    }

    /** The first list carrying `listId`, or None (Ruby `nil`) when no list does. */
    function FindList(listId: int): (r: Option<TodoList>)
      reads this
      ensures r.Some? <==> exists k :: 0 <= k < |lists| && lists[k].listId == listId
      ensures r.Some? ==> r.value.listId == listId
      ensures r.Some? ==> exists k :: 0 <= k < |lists| && lists[k] == r.value &&
                                     forall j :: 0 <= j < k ==> lists[j].listId != listId
    {
      match FindListIndex(lists, listId)
      case Some(k) => Some(lists[k])
      case None => None
    }

    /** The stored collection itself, in insertion order. */
    function AllLists(): (r: seq<TodoList>)
      reads this
      ensures r == lists
    {
      lists
    }

    method CreateNewList(listName: string)
      modifies this
      ensures lists == WithNewList(old(lists), listName)
      ensures old(Valid()) ==> Valid()
    {
      if Valid() {
        CreateNewListKeepsWellFormed(lists, listName);
      }
      lists := lists + [TodoList(NextListId(lists), listName, [])];
    }

    method DeleteList(listId: int)
      modifies this
      ensures lists == WithoutList(old(lists), listId)
      ensures old(Valid()) ==> Valid()
    {
      if Valid() {
        DeleteListKeepsWellFormed(lists, listId);
      }
      lists := WithoutList(lists, listId);
    }

    method UpdateListName(listId: int, newName: string)
      requires ListExists(lists, listId)
      modifies this
      ensures lists == Renamed(old(lists), listId, newName)
      ensures old(Valid()) ==> Valid()
    {
      if Valid() {
        RenameKeepsWellFormed(lists, listId, newName);
      }
      var k := FindListIndex(lists, listId).value;
      lists := lists[k := lists[k].(name := newName)];
    }

    method CreateNewTodo(listId: int, todoName: string)
      requires ListExists(lists, listId)
      modifies this
      ensures lists == WithNewTodo(old(lists), listId, todoName)
      ensures old(Valid()) ==> Valid()
    {
      if Valid() {
        CreateNewTodoKeepsWellFormed(lists, listId, todoName);
      }
      var k := FindListIndex(lists, listId).value;
      var id := NextTodoId(lists[k].todos);
      lists := lists[k := lists[k].(todos := lists[k].todos + [Todo(id, todoName, false)])];
    }

    /**
     * As written: the block compares each todo's id with `@todo_id`, an
     * instance variable this class never assigns, so it reads as `nil`; the
     * parameter `todoId` is unused. See DeleteTodoAsWrittenIsNoOp.
     */
    method DeleteTodoFromList(listId: int, todoId: int)
      requires ListExists(lists, listId)
      modifies this
      ensures lists == WithoutTodo(old(lists), listId, UnassignedTodoId)
      ensures lists == old(lists)
    {
      DeleteTodoAsWrittenIsNoOp(lists, listId);
      var k := FindListIndex(lists, listId).value;
      lists := lists[k := lists[k].(todos := Filter(lists[k].todos, Not(HasTodoId(UnassignedTodoId))))];
    }

    /** The evidently intended deletion: compare with the `todo_id` parameter. */
    method DeleteTodoFromListIntended(listId: int, todoId: int)
      requires ListExists(lists, listId)
      modifies this
      ensures lists == WithoutTodo(old(lists), listId, Some(todoId))
      ensures old(Valid()) ==> Valid()
    {
      if Valid() {
        DeleteTodoKeepsWellFormed(lists, listId, Some(todoId));
      }
      var k := FindListIndex(lists, listId).value;
      lists := lists[k := lists[k].(todos := Filter(lists[k].todos, Not(HasTodoId(Some(todoId)))))];
    }

    method UpdateTodoStatus(listId: int, todoId: int, newStatus: bool)
      requires ListExists(lists, listId)
      requires FindTodoIndex(lists[FindListIndex(lists, listId).value].todos, todoId).Some?
      modifies this
      ensures lists == WithTodoStatus(old(lists), listId, todoId, newStatus)
      ensures old(Valid()) ==> Valid()
    {
      if Valid() {
        UpdateTodoStatusKeepsWellFormed(lists, listId, todoId, newStatus);
      }
      var k := FindListIndex(lists, listId).value;
      var todos := lists[k].todos;
      var j := FindTodoIndex(todos, todoId).value;
      lists := lists[k := lists[k].(todos := todos[j := todos[j].(completed := newStatus)])];
    }

    /** `list[:todos].each { |todo| todo[:completed] = true }`, one todo at a time. */
    method MarkAllTodosAsCompleted(listId: int)
      requires ListExists(lists, listId)
      modifies this
      ensures lists == WithAllCompleted(old(lists), listId)
      ensures old(Valid()) ==> Valid()
    {
      if Valid() {
        MarkAllKeepsWellFormed(lists, listId);
      }
      var k := FindListIndex(lists, listId).value;
      var todos := lists[k].todos;
      var j := 0;
      while j < |todos|
        invariant 0 <= j <= |todos| == |lists[k].todos|
        invariant forall i :: 0 <= i < j ==> todos[i] == lists[k].todos[i].(completed := true)
        invariant forall i :: j <= i < |todos| ==> todos[i] == lists[k].todos[i]
      {
        todos := todos[j := todos[j].(completed := true)];
        j := j + 1;
      }
      assert todos == AllCompleted(lists[k].todos);
      lists := lists[k := lists[k].(todos := todos)];
    }
  }

  /** `@todo_id` inside SessionPersistence: never assigned, so Ruby reads it as `nil`. */
  const UnassignedTodoId: Option<int> := None

  // ---------------------------------------------------------------------------
  // Every operation preserves the store's invariants

  lemma CreateNewListKeepsWellFormed(lists: seq<TodoList>, listName: string)
    requires WellFormed(lists)
    ensures WellFormed(WithNewList(lists, listName))
  {
    var r := WithNewList(lists, listName);
    forall k | 0 <= k < |r| ensures UniqueTodoIds(r[k].todos) {
      if k < |lists| {
        assert r[k] == lists[k];
      }
    }
  }

  lemma DeleteListKeepsWellFormed(lists: seq<TodoList>, listId: int)
    requires WellFormed(lists)
    ensures WellFormed(WithoutList(lists, listId))
  {
    FilterKeepsWellFormed(lists, Not(HasListId(listId)));
  }

  /** Filtering lists keeps both uniqueness invariants. */
  lemma {:induction false} FilterKeepsWellFormed(lists: seq<TodoList>, p: TodoList -> bool)
    requires WellFormed(lists)
    ensures WellFormed(Filter(lists, p))
  {
    if |lists| > 0 {
      var rest := Filter(lists[1..], p);
      FilterKeepsWellFormed(lists[1..], p);
      FilterMembers(lists[1..], p);
      assert forall k :: 0 <= k < |rest| ==> rest[k] in lists[1..];
      forall k | 0 <= k < |rest| ensures rest[k].listId != lists[0].listId {
        var i :| 1 <= i < |lists| && lists[i] == rest[k];
      }
    }
  }

  lemma RenameKeepsWellFormed(lists: seq<TodoList>, listId: int, newName: string)
    requires WellFormed(lists)
    requires ListExists(lists, listId)
    ensures WellFormed(Renamed(lists, listId, newName))
  {
  }

  lemma CreateNewTodoKeepsWellFormed(lists: seq<TodoList>, listId: int, todoName: string)
    requires WellFormed(lists)
    requires ListExists(lists, listId)
    ensures WellFormed(WithNewTodo(lists, listId, todoName))
  {
    var r := WithNewTodo(lists, listId, todoName);
    var k := FindListIndex(lists, listId).value;
    var n := |lists[k].todos|;
    assert forall i :: 0 <= i < n ==> r[k].todos[i] == lists[k].todos[i];
  }

  lemma DeleteTodoKeepsWellFormed(lists: seq<TodoList>, listId: int, target: Option<int>)
    requires WellFormed(lists)
    requires ListExists(lists, listId)
    ensures WellFormed(WithoutTodo(lists, listId, target))
  {
    var k := FindListIndex(lists, listId).value;
    FilterKeepsUniqueTodoIds(lists[k].todos, Not(HasTodoId(target)));
  }

  /** Filtering todos keeps their ids unique. */
  lemma {:induction false} FilterKeepsUniqueTodoIds(todos: seq<Todo>, p: Todo -> bool)
    requires UniqueTodoIds(todos)
    ensures UniqueTodoIds(Filter(todos, p))
  {
    if |todos| > 0 {
      var rest := Filter(todos[1..], p);
      FilterKeepsUniqueTodoIds(todos[1..], p);
      FilterMembers(todos[1..], p);
      forall k | 0 <= k < |rest| ensures rest[k].id != todos[0].id {
        assert rest[k] in todos[1..];
        var i :| 1 <= i < |todos| && todos[i] == rest[k];
      }
    }
  }

  lemma UpdateTodoStatusKeepsWellFormed(lists: seq<TodoList>, listId: int, todoId: int, newStatus: bool)
    requires WellFormed(lists)
    requires ListExists(lists, listId)
    requires FindTodoIndex(lists[FindListIndex(lists, listId).value].todos, todoId).Some?
    ensures WellFormed(WithTodoStatus(lists, listId, todoId, newStatus))
  {
  }

  lemma MarkAllKeepsWellFormed(lists: seq<TodoList>, listId: int)
    requires WellFormed(lists)
    requires ListExists(lists, listId)
    ensures WellFormed(WithAllCompleted(lists, listId))
  {
  }

  // ---------------------------------------------------------------------------
  // Properties relating several operations

  /** After `create_new_list`, `find_list` on the id it assigned yields the new, empty list. */
  lemma CreatedListIsFound(lists: seq<TodoList>, listName: string)
    ensures FindListIndex(WithNewList(lists, listName), NextListId(lists)) == Some(|lists|)
    ensures WithNewList(lists, listName)[|lists|] == TodoList(NextListId(lists), listName, [])
  {
    var r := WithNewList(lists, listName);
    var found := FindListIndex(r, NextListId(lists));
    assert r[|lists|].listId == NextListId(lists);
    assert found.Some?;
    assert forall j :: 0 <= j < |lists| ==> r[j] == lists[j];
  }

  /** Deleting a list whose id no list carries leaves the collection as it was. */
  lemma DeleteMissingListIsNoOp(lists: seq<TodoList>, listId: int)
    requires !ListExists(lists, listId)
    ensures WithoutList(lists, listId) == lists
  {
    FilterKeepsAll(lists, Not(HasListId(listId)));
  }

  /** With unique list ids, `delete_list` removes exactly the one list and keeps the others in order. */
  lemma DeleteListRemovesExactlyOne(lists: seq<TodoList>, k: nat)
    requires UniqueListIds(lists)
    requires k < |lists|
    ensures WithoutList(lists, lists[k].listId) == lists[..k] + lists[k + 1..]
  {
    var p := Not(HasListId(lists[k].listId));
    assert forall i :: 0 <= i < |lists| && i != k ==> p(lists[i]);
    FilterRemovesOne(lists, k, p);
  }

  /**
   * `delete_todo_from_list` as written never removes anything: every todo id
   * is an integer and never equals the unassigned `@todo_id`.
   */
  lemma DeleteTodoAsWrittenIsNoOp(lists: seq<TodoList>, listId: int)
    requires ListExists(lists, listId)
    ensures WithoutTodo(lists, listId, UnassignedTodoId) == lists
  {
    var k := FindListIndex(lists, listId).value;
    FilterKeepsAll(lists[k].todos, Not(HasTodoId(UnassignedTodoId)));
  }

  /** A concrete store on which the written deletion and the intended one differ. */
  lemma DeleteTodoAsWrittenCounterexample()
    ensures var lists := [TodoList(1, "Groceries", [Todo(1, "Milk", false)])];
      && WithoutTodo(lists, 1, UnassignedTodoId)[0].todos == [Todo(1, "Milk", false)]
      && WithoutTodo(lists, 1, Some(1))[0].todos == []
  {
    var lists := [TodoList(1, "Groceries", [Todo(1, "Milk", false)])];
    DeleteTodoAsWrittenIsNoOp(lists, 1);
  }

  /**
   * The intended deletion removes exactly the todo carrying `todoId` and keeps
   * the rest of that list in order; afterwards no todo of that list has the id.
   */
  lemma DeleteTodoIntendedRemovesExactlyOne(lists: seq<TodoList>, listId: int, j: nat)
    requires ListExists(lists, listId)
    requires UniqueTodoIds(lists[FindListIndex(lists, listId).value].todos)
    requires j < |lists[FindListIndex(lists, listId).value].todos|
    ensures var k := FindListIndex(lists, listId).value; var todos := lists[k].todos;
      && WithoutTodo(lists, listId, Some(todos[j].id))[k].todos == todos[..j] + todos[j + 1..]
      && FindTodoIndex(WithoutTodo(lists, listId, Some(todos[j].id))[k].todos, todos[j].id) == None
  {
    var k := FindListIndex(lists, listId).value;
    var todos := lists[k].todos;
    var p := Not(HasTodoId(Some(todos[j].id)));
    assert forall i :: 0 <= i < |todos| && i != j ==> p(todos[i]);
    FilterRemovesOne(todos, j, p);
  }

  /** Marking every todo completed twice is the same as once. */
  lemma MarkAllIsIdempotent(lists: seq<TodoList>, listId: int)
    requires ListExists(lists, listId)
    ensures ListExists(WithAllCompleted(lists, listId), listId)
    ensures WithAllCompleted(WithAllCompleted(lists, listId), listId) == WithAllCompleted(lists, listId)
  {
    var once := WithAllCompleted(lists, listId);
    var k := FindListIndex(lists, listId).value;
    assert forall j :: 0 <= j < k ==> once[j] == lists[j];
    assert FindListIndex(once, listId) == Some(k);
    assert AllCompleted(once[k].todos) == once[k].todos;
  }
}
