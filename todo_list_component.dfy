/** The task list screen (TodoList.tsx) as a stateful object: the user's
    list, kept in step with its entry in the browser store, the open
    editors and the view controls, with one method per handler. */
module TodoListScreen {
  import opened Types
  import opened Seqs
  import opened Storage
  import opened TaskList
  import opened TaskView
  import opened TaskItem

  class TodoList {
    const userId: string
    const store: Store
    var todos: seq<Todo>
    var isModalOpen: bool
    var editing: Option<Todo>
    var query: string
    var filter: StatusFilter
    var order: SortBy

    /** The list on screen is the list saved under the user's key. */
    ghost predicate Valid()
      reads this, store
    {
      TodosKey(userId) in store.entries && store.entries[TodosKey(userId)] == TodosValue(todos)
    }

    /** Mounting the screen for a user: the saved list if the store has one,
        otherwise the sample list, which is saved at once. Nothing else in
        the store changes. */
    constructor (userId: string, store: Store)
      requires TodosKey(userId) in store.entries ==> store.entries[TodosKey(userId)].TodosValue?
      modifies store
      ensures this.userId == userId && this.store == store
      ensures todos == LoadedTodos(old(store.entries), userId)
      ensures store.entries == old(store.entries)[TodosKey(userId) := TodosValue(todos)]
      ensures Valid()
      ensures !isModalOpen && editing == None && query == "" && filter == All && order == ByDeadline
    {
      this.userId := userId;
      this.store := store;
      isModalOpen := false;
      editing := None;
      query := "";
      filter := All;
      order := ByDeadline;
      todos := [];
      new;
      var saved := store.GetItem(TodosKey(userId));
      if saved.Some? {
        todos := saved.value.todos;
        assert store.entries == store.entries[TodosKey(userId) := TodosValue(todos)];
      } else {
        todos := SampleTodos(userId);
        store.SetItem(TodosKey(userId), TodosValue(todos));
      }
    }

    /** `saveTodos`: the new list replaces the list on screen and the one in
        the store. */
    method SaveTodos(updated: seq<Todo>)
      modifies this`todos, store
      ensures todos == updated
      ensures store.entries == old(store.entries)[TodosKey(userId) := TodosValue(updated)]
      ensures Valid()
    {
      todos := updated;
      store.SetItem(TodosKey(userId), TodosValue(updated));
    }

    /** `handleCreateTodo`: appends the task built from the editor's payload
        with a fresh id and closes the create editor. */
    method HandleCreateTodo(draft: Draft, freshId: string)
      modifies this`todos, this`isModalOpen, store
      ensures todos == CreateTodo(old(todos), draft, freshId, userId)
      ensures store.entries == old(store.entries)[TodosKey(userId) := TodosValue(todos)]
      ensures Valid() && !isModalOpen
    {
      SaveTodos(CreateTodo(todos, draft, freshId, userId));
      isModalOpen := false;
    }

    /** `handleUpdateTodo`: merges the payload into the tasks with that id
        and closes the edit editor. */
    method HandleUpdateTodo(id: string, draft: Draft)
      modifies this`todos, this`editing, store
      ensures todos == UpdateTodo(old(todos), id, draft)
      ensures store.entries == old(store.entries)[TodosKey(userId) := TodosValue(todos)]
      ensures Valid() && editing == None
    {
      SaveTodos(UpdateTodo(todos, id, draft));
      editing := None;
    }

    /** `handleToggleStatus`: flips the status of the tasks with that id,
        stamping or clearing the finish time. */
    method HandleToggleStatus(id: string, now: int)
      modifies this`todos, store
      ensures todos == ToggleTodo(old(todos), id, now)
      ensures store.entries == old(store.entries)[TodosKey(userId) := TodosValue(todos)]
      ensures Valid()
    {
      SaveTodos(ToggleTodo(todos, id, now));
    }

    /** `handleDeleteTodo`: removes the tasks with that id. */
    method HandleDeleteTodo(id: string)
      modifies this`todos, store
      ensures todos == DeleteTodo(old(todos), id)
      ensures store.entries == old(store.entries)[TodosKey(userId) := TodosValue(todos)]
      ensures Valid()
    {
      SaveTodos(DeleteTodo(todos, id));
    }

    /** The "add task" button and the create editor's close button. */
    method SetModalOpen(open: bool)
      modifies this`isModalOpen
      ensures isModalOpen == open
    {
      isModalOpen := open;
    }

    /** A row's edit button (`onEdit`) and the edit editor's close button. */
    method SetEditing(t: Option<Todo>)
      modifies this`editing
      ensures editing == t
    {
      editing := t;
    }

    /** A row's request: toggle and delete go to their handlers, edit opens
        the editor on that task. */
    method Dispatch(a: Action, now: int)
      modifies this`todos, this`editing, store
      ensures a.ToggleStatus? ==> todos == ToggleTodo(old(todos), a.id, now) && editing == old(editing)
      ensures a.DeleteTask? ==> todos == DeleteTodo(old(todos), a.id) && editing == old(editing)
      ensures a.EditTask? ==> todos == old(todos) && editing == Some(a.todo) && store.entries == old(store.entries)
      ensures !a.EditTask? ==> store.entries == old(store.entries)[TodosKey(userId) := TodosValue(todos)]
    {
      match a
      case ToggleStatus(id) => HandleToggleStatus(id, now);
      case DeleteTask(id) => HandleDeleteTodo(id);
      case EditTask(t) => SetEditing(Some(t));
    }

    /** The search box, the status select and the sort select. */
    method SetControls(query: string, filter: StatusFilter, order: SortBy)
      modifies this`query, this`filter, this`order
      ensures this.query == query && this.filter == filter && this.order == order
    {
      this.query := query;
      this.filter := filter;
      this.order := order;
    }

    /** `filteredAndSortedTodos`: filters step by step, then sorts the
        filtered tasks in place. The result is the projection of the list
        under the current controls. */
    method FilteredAndSortedTodos() returns (shown: seq<Todo>)
      ensures shown == Projection(todos, query, filter, order)
    {
      var filtered := todos;
      if query != "" {
        filtered := Filter(MatchesQuery(query), filtered);
      }
      if filter.Only? {
        filtered := Filter(WithStatus(filter.status), filtered);
      }
      var a := new Todo[|filtered|](i requires 0 <= i < |filtered| => filtered[i]);
      assert a[..] == filtered;
      SortInPlace(a, order);
      shown := a[..];
    }
  }
}
