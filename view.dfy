/** The task view: the list of todos and its loading flag, updated by the
    initial fetch, by realtime change notifications and by the handlers of
    the create, toggle, rename and delete actions. Remote calls are not made
    here: each handler is given how its awaited call settles. */
module View {
  import opened Todos
  import opened Reconciler

  /** The `isMounted` flag one run of the initial-fetch effect closes over. */
  class LoadEffect {
    var isMounted: bool

    constructor ()
      ensures isMounted
    {
      isMounted := true;
    }

    /** The effect's cleanup: results that arrive afterwards are discarded. */
    method Cleanup()
      modifies this
      ensures !isMounted
    {
      isMounted := false;
    }
  }

  class TodoView {
    const user: UserId
    var todos: seq<Todo>
    var loading: bool

    constructor (user: UserId)
      ensures this.user == user && todos == [] && loading
    {
      this.user := user;
      todos := [];
      loading := true;
    }

    /** The initial-fetch effect up to its await: loading is set and the fetch is issued. */
    method StartLoad() returns (effect: LoadEffect, sent: Request)
      modifies this`loading
      ensures fresh(effect) && effect.isMounted
      ensures sent == FetchTodos(user)
      ensures loading && todos == old(todos)
    {
      effect := new LoadEffect();
      loading := true;
      sent := FetchTodos(user);
    }

    /** The rest of the effect once the fetch settles: a fetched list replaces
        the todos wholesale and loading ends, but only while the effect is
        still mounted; a failed fetch leaves the todos as they were. */
    method FinishLoad(effect: LoadEffect, fetched: Reply<seq<Todo>>)
      modifies this`todos, this`loading
      ensures todos == if effect.isMounted && fetched.Resolved? then fetched.value else old(todos)
      ensures loading == if effect.isMounted then false else old(loading)
    {
      if fetched.Resolved? {
        if effect.isMounted {
          todos := fetched.value;
        }
      }
      if effect.isMounted {
        loading := false;
      }
    }

    /** A realtime change notification. */
    method OnChange(p: Payload)
      requires Concerns(p, user) ==> Delivered(p)
      modifies this`todos
      ensures todos == ApplyEvent(old(todos), user, p)
    {
      todos := ApplyEvent(todos, user, p);
    }

    /** Create: the row the store returns is prepended; a failure is caught, so
        the handler itself always resolves. */
    method HandleAdd(title: string, created: Reply<Todo>) returns (sent: Request, settled: Reply<()>)
      modifies this`todos
      ensures sent == AddTodo(user, title)
      ensures todos == if created.Resolved? then [created.value] + old(todos) else old(todos)
      ensures settled == Resolved(())
    {
      sent := AddTodo(user, title);
      if created.Resolved? {
        todos := [created.value] + todos;
      }
      settled := Resolved(());
    }

    /** Toggle: the completion flag is flipped remotely, and the returned row
        replaces the elements with the toggled todo's id; a failure propagates. */
    method HandleToggle(todo: Todo, updated: Reply<Todo>) returns (sent: Request, settled: Reply<()>)
      modifies this`todos
      ensures sent == UpdateTodo(todo.id, SetComplete(!todo.isComplete))
      ensures todos == if updated.Resolved? then ReplaceById(old(todos), todo.id, updated.value) else old(todos)
      ensures settled == if updated.Resolved? then Resolved(()) else Rejected(updated.message)
    {
      sent := UpdateTodo(todo.id, SetComplete(!todo.isComplete));
      match updated {
        case Rejected(message) =>
          settled := Rejected(message);
        case Resolved(row) =>
          todos := ReplaceById(todos, todo.id, row);
          settled := Resolved(());
      }
    }

    /** Rename: the returned row replaces the elements with that id; a failure propagates. */
    method HandleRename(id: TodoId, newTitle: string, updated: Reply<Todo>) returns (sent: Request, settled: Reply<()>)
      modifies this`todos
      ensures sent == UpdateTodo(id, SetTitle(newTitle))
      ensures todos == if updated.Resolved? then ReplaceById(old(todos), id, updated.value) else old(todos)
      ensures settled == if updated.Resolved? then Resolved(()) else Rejected(updated.message)
    {
      sent := UpdateTodo(id, SetTitle(newTitle));
      match updated {
        case Rejected(message) =>
          settled := Rejected(message);
        case Resolved(row) =>
          todos := ReplaceById(todos, id, row);
          settled := Resolved(());
      }
    }

    /** Delete: once the store confirms, every element with the todo's id is
        dropped; a failure propagates. */
    method HandleDelete(todo: Todo, deleted: Reply<()>) returns (sent: Request, settled: Reply<()>)
      modifies this`todos
      ensures sent == DeleteTodo(todo.id)
      ensures todos == if deleted.Resolved? then RemoveById(old(todos), todo.id) else old(todos)
      ensures settled == deleted
    {
      sent := DeleteTodo(todo.id);
      if deleted.Resolved? {
        todos := RemoveById(todos, todo.id);
      }
      settled := deleted;
    }
  }

  /** A change notification that arrives while the initial fetch is in flight
      is applied to the still-empty list, and the fetched rows then replace
      the list wholesale: when those rows predate the update, it is lost. */
  method UpdateDuringLoadLost(user: UserId, fetched: seq<Todo>, p: Payload) returns (v: TodoView)
    requires p.eventType == Update && Concerns(p, user) && Delivered(p)
    requires p.newRow.value !in fetched
    ensures v.user == user && !v.loading
    ensures v.todos == fetched && p.newRow.value !in v.todos
  {
    v := new TodoView(user);
    var effect, _ := v.StartLoad();
    v.OnChange(p);
    v.FinishLoad(effect, Resolved(fetched));
  }

  /** The same notification once the fetch has landed: when the fetched rows
      hold its id, the updated row is in the list. */
  method UpdateAfterLoadKept(user: UserId, fetched: seq<Todo>, p: Payload) returns (v: TodoView)
    requires p.eventType == Update && Concerns(p, user) && Delivered(p)
    requires HasId(fetched, p.newRow.value.id) && p.newRow.value !in fetched
    ensures v.user == user && !v.loading
    ensures v.todos == ApplyEvent(fetched, user, p) && v.todos != fetched
    ensures p.newRow.value in v.todos
  {
    v := new TodoView(user);
    var effect, _ := v.StartLoad();
    v.FinishLoad(effect, Resolved(fetched));
    v.OnChange(p);
    UpdateBeforeLoadLost(fetched, user, p);
  }
}
