/** The task view hands its create handler to the add-task form as `onAdd`. */
module Wiring {
  import opened Todos
  import opened Input
  import opened View

  /** Submitting the add-task form of a task view. The view's create handler
      catches a failed create, so the form always sees `onAdd` resolve: a
      non-blank title is cleared whether or not the row was created, and the
      form's own submit handler never rejects. */
  method SubmitNewTodo(input: TodoInput, view: TodoView, created: Reply<Todo>) returns (sent: Option<Request>, settled: Reply<()>)
    modifies input, view`todos
    ensures AddArgument(old(input.title)).None? ==>
              sent == None && input.title == old(input.title) && input.busy == old(input.busy) &&
              view.todos == old(view.todos)
    ensures AddArgument(old(input.title)).Some? ==>
              sent == Some(AddTodo(view.user, AddArgument(old(input.title)).value)) &&
              input.title == [] && !input.busy &&
              view.todos == if created.Resolved? then [created.value] + old(view.todos) else old(view.todos)
    ensures settled == Resolved(())
  {
    var arg := AddArgument(input.title);
    if arg.None? {
      var call, _, formSettled := input.HandleAdd(Resolved(()));
      return None, formSettled;
    }
    var request, viewSettled := view.HandleAdd(arg.value, created);
    var call, _, formSettled := input.HandleAdd(viewSettled);
    settled := formSettled;
    sent := Some(request);
  }
}
