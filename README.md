# Todo lists: session store and Sinatra handlers in Dafny

This project models the core of a small Sinatra todo-list application. The
application keeps *lists*, and each list has a name and an ordered sequence of
*todos*; each todo has a name and a completed flag. Two parts are modelled.

* **`SessionStore`** (`session_store.dfy`) is the `SessionPersistence` class.
  It is a store over `session[:lists]` in which every list has a `list_id` and
  every todo an `id`. New ids are one more than the largest id already present.
  The class keeps its collection in a `seq` field, and every method that
  changes the store replaces that field by a function of the old collection
  (`WithNewList`, `WithoutList`, `Renamed`, ...). Lemmas about those functions
  prove that list ids stay unique and todo ids stay unique within each list.
* **`TodoApp`** (`todo_app.dfy`) is what the route file does to
  `session[:lists]` directly:
  * the view helpers `todos_count`, `todos_remaining_count` and
    `list_complete?`;
  * the incomplete-first orderings `sort_lists` and `sort_todos`;
  * the two name validators;
  * the effect of every POST handler.

  In this file lists and todos carry no ids. They are addressed by position
  with Ruby's `Array#[]` and `Array#delete_at`, negative positions included.
  Class `Session` runs the handlers against a `seq` field, and lemmas prove
  that validation keeps list names 1–100 characters long and pairwise
  distinct, and todo names 1–100 characters long.

`seqs.dfy` holds generic sequence functions standing for Ruby's
`select`/`reject`/`partition`, `find` and `index`. `wrappers.dfy` holds
`Option`, which stands for a value or Ruby `nil`.

A Ruby call that would raise on `nil` is modelled as a `requires`:
* `find_list` finding nothing and the result being dereferenced;
* `session[:lists][i]` out of range and the result being dereferenced.

A branch that never dereferences the value carries no such requirement, for
example a failed validation in `POST /lists/:id`.

The specification says `deleteTodo` removes the matching todo. The code of
`delete_todo_from_list` compares against an unassigned instance variable, so
it removes nothing. The model follows the code (see Findings), and the rest
of the model uses the intended deletion alongside it.

## Model

| member | source | states |
|---|---|---|
| SessionStore.SessionPersistence.constructor | session_persistence.rb:3-6 | the store keeps the lists already in the session, or starts from the empty collection, which is well formed |
| SessionStore.SessionPersistence.FindList | session_persistence.rb:8-10 | a list is found exactly when some list carries the id; the one found carries the id and no earlier list does |
| SessionStore.SessionPersistence.AllLists | session_persistence.rb:12-14 | returns the stored collection as it is, in insertion order |
| SessionStore.SessionPersistence.CreateNewList | session_persistence.rb:16-19 | the new collection is `WithNewList` of the old one; unique ids are preserved |
| SessionStore.SessionPersistence.DeleteList | session_persistence.rb:21-23 | the new collection is `WithoutList` of the old one; unique ids are preserved |
| SessionStore.SessionPersistence.UpdateListName | session_persistence.rb:25-28 | for an existing list, the new collection is `Renamed` of the old one; unique ids are preserved |
| SessionStore.SessionPersistence.CreateNewTodo | session_persistence.rb:30-34 | for an existing list, the new collection is `WithNewTodo` of the old one; unique ids are preserved |
| SessionStore.SessionPersistence.DeleteTodoFromList | session_persistence.rb:36-39 | as written: the todos are filtered against the unassigned `@todo_id`, and the collection is left exactly as it was |
| SessionStore.SessionPersistence.DeleteTodoFromListIntended | session_persistence.rb:36-39 | filtering against the `todo_id` parameter instead gives `WithoutTodo` of the old collection; unique ids are preserved |
| SessionStore.SessionPersistence.UpdateTodoStatus | session_persistence.rb:41-45 | for an existing list and todo, the new collection is `WithTodoStatus` of the old one; unique ids are preserved |
| SessionStore.SessionPersistence.MarkAllTodosAsCompleted | session_persistence.rb:47-50 | a loop over the todos sets every flag; the result is `WithAllCompleted` of the old collection; unique ids are preserved |
| SessionStore.MaxOf | session_persistence.rb:55 | `max` of a non-empty sequence is one of its elements and no element exceeds it |
| SessionStore.NextListId | session_persistence.rb:54-57 | the new list id is 1 for an empty store; otherwise it exceeds every list id and is one more than some existing id |
| SessionStore.NextTodoId | session_persistence.rb:59-62 | the new todo id is 1 for an empty list; otherwise it exceeds every todo id of that list and is one more than some existing id |
| SessionStore.FindListIndex | session_persistence.rb:8-10 | the position of the first list carrying the id; None exactly when no list carries it |
| SessionStore.FindTodoIndex | session_persistence.rb:43 | the position of the first todo carrying the id; None exactly when no todo carries it |
| SessionStore.WithNewList | session_persistence.rb:16-19 | one list is appended with the given name, no todos and an id greater than every other list id; the old lists are untouched |
| SessionStore.WithoutList | session_persistence.rb:21-23 | keeps exactly the lists whose id differs, all taken from the old collection; afterwards no list carries the id |
| SessionStore.Renamed | session_persistence.rb:25-28 | only the first list carrying the id changes, and only its name |
| SessionStore.WithNewTodo | session_persistence.rb:30-34 | the found list gains one open todo at the end, named as given, with an id greater than all its other todo ids; every other list is unchanged |
| SessionStore.WithoutTodo | session_persistence.rb:36-39 | in the found list, keeps exactly the todos whose id differs from the target; every other list is unchanged |
| SessionStore.WithTodoStatus | session_persistence.rb:41-45 | only the first todo with the id in the found list changes, and only its flag, which becomes the new status |
| SessionStore.AllCompleted | session_persistence.rb:49 | same todos, in the same order with the same ids and names, all completed |
| SessionStore.WithAllCompleted | session_persistence.rb:47-50 | only the found list changes: its todos are all completed |
| SessionStore.CreateNewListKeepsWellFormed | session_persistence.rb:16-19 | creating a list keeps list ids unique and todo ids unique per list |
| SessionStore.DeleteListKeepsWellFormed | session_persistence.rb:21-23 | deleting a list keeps both uniqueness invariants |
| SessionStore.FilterKeepsWellFormed | session_persistence.rb:22 | `reject!` on the lists keeps both uniqueness invariants |
| SessionStore.RenameKeepsWellFormed | session_persistence.rb:25-28 | renaming keeps both uniqueness invariants |
| SessionStore.CreateNewTodoKeepsWellFormed | session_persistence.rb:30-34 | adding a todo with `next_todo_id` keeps todo ids unique in that list |
| SessionStore.DeleteTodoKeepsWellFormed | session_persistence.rb:36-39 | deleting todos, under any target, keeps both uniqueness invariants |
| SessionStore.FilterKeepsUniqueTodoIds | session_persistence.rb:38 | `reject!` on the todos keeps their ids unique |
| SessionStore.UpdateTodoStatusKeepsWellFormed | session_persistence.rb:41-45 | changing a flag keeps both uniqueness invariants |
| SessionStore.MarkAllKeepsWellFormed | session_persistence.rb:47-50 | completing all todos keeps both uniqueness invariants |
| SessionStore.CreatedListIsFound | session_persistence.rb:8-19 | after `create_new_list`, `find_list` on the assigned id finds the new list, which has the given name and no todos |
| SessionStore.DeleteMissingListIsNoOp | session_persistence.rb:21-23 | deleting an id no list carries leaves the collection as it was |
| SessionStore.DeleteListRemovesExactlyOne | session_persistence.rb:21-23 | with unique ids, deleting a list's id removes that list alone and keeps the others in order |
| SessionStore.DeleteTodoAsWrittenIsNoOp | session_persistence.rb:36-39 | as written, deleting a todo never changes the store |
| SessionStore.DeleteTodoAsWrittenCounterexample | session_persistence.rb:36-39 | on a store with list 1 holding todo 1, the written deletion keeps the todo and the intended one removes it |
| SessionStore.DeleteTodoIntendedRemovesExactlyOne | session_persistence.rb:36-39 | with unique todo ids, the intended deletion removes exactly that todo, keeps the rest in order, and leaves no todo with that id |
| SessionStore.MarkAllIsIdempotent | session_persistence.rb:47-50 | marking all todos completed twice gives the same store as once |
| TodoApp.TodosRemainingCount | todo.rb:13-15 | the number of open todos is at most the number of todos, and is zero exactly when every todo is completed |
| TodoApp.ListComplete | todo.rb:24-26 | a list is complete exactly when it has at least one todo and every todo is completed |
| TodoApp.RemainingAfterUpdate | todo.rb:13-15 | setting one todo's flag moves the remaining count by exactly that todo's change |
| TodoApp.IncompleteFirst | todo.rb:32-50 | yields as many pairs as items; each index points at its item and is the first equal position (`Array#index`); no complete item comes before an incomplete one |
| TodoApp.IncompleteFirstItems | todo.rb:36-39 | the yielded items are the incomplete items in order, then the complete items in order |
| TodoApp.IncompleteFirstIsPermutation | todo.rb:36-39 | every item is yielded exactly as often as it occurs |
| TodoApp.IncompleteFirstIsStable | todo.rb:36-39 | within each group the items keep their original relative order |
| TodoApp.IncompleteFirstDistinctIndices | todo.rb:38-39 | when no two items are equal, no index is yielded twice |
| TodoApp.SortLists | todo.rb:32-40 | yields a permutation of the lists, each with a position holding it, with every complete list after every incomplete one |
| TodoApp.SortTodos | todo.rb:42-50 | yields a permutation of the todos, each with a position holding it, with every completed todo after every open one |
| TodoApp.SortTodosSplitsAtRemaining | todo.rb:42-50 | exactly the first `todos_remaining_count` yielded todos are open; all after them are completed |
| TodoApp.ErrorForListName | todo.rb:96-102 | the length error exactly when the name is not 1–100 characters; the uniqueness error exactly when the length is fine and some list already has the name; no error otherwise |
| TodoApp.ErrorForTodo | todo.rb:106-110 | no error exactly when the name is 1–100 characters, and otherwise the todo length error |
| TodoApp.KeepingOwnNameIsRejected | todo.rb:128-142 | renaming a list to the name it already has is rejected as not unique |
| TodoApp.RubyIndex | todo.rb:131 | an index resolves exactly when it lies in -n..n-1; a negative index counts back from the end |
| TodoApp.DeleteAt | todo.rb:146 | `delete_at` removes the element at the resolved position and shifts later ones down, or changes nothing for an index out of range |
| TodoApp.CreateListEffect | todo.rb:113-125 | on a valid name, one list is appended with that name and no todos; otherwise nothing changes |
| TodoApp.UpdateListEffect | todo.rb:128-142 | on a valid name, only the addressed list's name changes; otherwise nothing changes, even for a position that does not resolve |
| TodoApp.CreateTodoEffect | todo.rb:152-166 | on valid text, the addressed list gains one open todo at the end; otherwise nothing changes |
| TodoApp.DeleteTodoEffect | todo.rb:169-177 | only the addressed list changes: `delete_at` on its todos |
| TodoApp.UpdateTodoEffect | todo.rb:180-189 | only the addressed todo changes; it becomes completed exactly when the `completed` parameter is the string "true" |
| TodoApp.AllCompleted | todo.rb:196 | same todos in the same order with the same names, all completed |
| TodoApp.CompleteAllEffect | todo.rb:192-199 | only the addressed list changes: its todos are all completed |
| TodoApp.Session.constructor | todo.rb:53-55 | `session[:lists] ||= []`: keeps the stored lists, or starts from the empty collection, which is well formed |
| TodoApp.Session.CreateList | todo.rb:113-125 | reports `error_for_list_name` of the old lists; the new lists are `CreateListEffect`; well-formedness is preserved |
| TodoApp.Session.UpdateList | todo.rb:128-142 | reports `error_for_list_name` of the old lists; the new lists are `UpdateListEffect`; well-formedness is preserved |
| TodoApp.Session.DeleteList | todo.rb:145-149 | the new lists are `delete_at` of the old ones at the given position; well-formedness is preserved |
| TodoApp.Session.CreateTodo | todo.rb:152-166 | reports `error_for_todo`; the new lists are `CreateTodoEffect`; well-formedness is preserved |
| TodoApp.Session.DeleteTodo | todo.rb:169-177 | the new lists are `DeleteTodoEffect`; well-formedness is preserved |
| TodoApp.Session.UpdateTodo | todo.rb:180-189 | the new lists are `UpdateTodoEffect`; well-formedness is preserved |
| TodoApp.Session.CompleteAll | todo.rb:192-199 | a loop over the todos sets every flag; the new lists are `CompleteAllEffect`; well-formedness is preserved |
| TodoApp.CreateListKeepsWellFormed | todo.rb:113-125 | creating a list through validation keeps names valid and distinct |
| TodoApp.UpdateListKeepsWellFormed | todo.rb:128-142 | renaming through validation keeps names valid and distinct |
| TodoApp.DeleteListKeepsWellFormed | todo.rb:145-149 | deleting a list at any position keeps names valid and distinct |
| TodoApp.CreateTodoKeepsWellFormed | todo.rb:152-166 | adding a todo through validation keeps every todo name valid |
| TodoApp.DeleteTodoKeepsWellFormed | todo.rb:169-177 | deleting a todo at any position keeps every name valid |
| TodoApp.UpdateTodoKeepsWellFormed | todo.rb:180-189 | changing a flag keeps every name valid |
| TodoApp.CompleteAllKeepsWellFormed | todo.rb:192-199 | completing all todos keeps every name valid |
| TodoApp.CompleteAllCompletesList | todo.rb:192-199 | after complete-all the list has no remaining todos and the same count, and it is complete exactly when it has todos |
| TodoApp.CompleteAllIsIdempotent | todo.rb:192-199 | complete-all twice gives the same lists as once |
| TodoApp.CheckingOffOpenTodo | todo.rb:180-189 | checking off an open todo lowers the remaining count by one; the list becomes complete exactly when that todo was the last open one |
| TodoApp.GroceriesExample | todo.rb:113-189 | create "Groceries", add "Milk" and "Eggs", check off "Milk": 2 todos, 1 remaining, not complete; check off "Eggs": complete |

## Left out

- database_persistence.rb, the relational store, is not part of this model. The specification's "`allLists` sorted by name" comes from that store; the session store returns lists in insertion order, and `SessionStore.SessionPersistence.AllLists` says so.
- The route file builds its records without ids and addresses them by position; it never calls `SessionPersistence`. The two parts are therefore separate modules with separate record types.
- GET routes, erb rendering, redirects, layouts, `list_class` and the flash messages in `session[:success]` and `session[:error]` are presentation. They are not modelled. The error a handler would store is returned by the `Session` method instead; `TodoApp.Message` gives its exact text.
- `String#strip` on submitted names and `String#to_i` on route parameters: the model takes names as already stripped and positions as already-converted integers.
- Ruby hash aliasing: `find_list` and `all_lists` hand out the stored hashes, so a caller could change the store through them. Here they return values, and only the class's methods change the store.
- A Ruby exception from calling a method on `nil` is not modelled as a behaviour. Each such case is a `requires` on the operation: the list (or todo) must exist in `SessionPersistence`, and the position must resolve in the handlers that dereference it.
- `TodosCount` (todo.rb:18-20) computes `list[:todos].size` and carries no contract of its own. It is used by the contracts of `TodosRemainingCount`, `CompleteAllCompletesList` and `GroceriesExample`.
- The `yield` callbacks of `sort_lists`/`sort_todos` are modelled as the sequence of `(item, index)` pairs they would receive, in order.
- Session storage in a signed cookie, the session secret and Sinatra's reloader are not modelled.

## Findings

| source | as written | input that shows it | evidently intended | confidence | as-written member | corrected member |
|---|---|---|---|---|---|---|
| session_persistence.rb:38 | the `reject!` block compares each todo id with `@todo_id`, which the class never assigns, so it is `nil` and no todo is ever removed | store `[{list_id: 1, name: "Groceries", todos: [{id: 1, name: "Milk", completed: false}]}]`, call `delete_todo_from_list(1, 1)`: "Milk" stays | compare with the `todo_id` parameter, removing the todo with that id | high; not executed | SessionStore.DeleteTodoAsWrittenCounterexample | SessionStore.DeleteTodoIntendedRemovesExactlyOne |
