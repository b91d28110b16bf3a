/** The values the task-list client passes around: rows of the remote `todos`
    table, the replies of awaited remote calls and the requests the client issues. */
module Todos {

  datatype Option<+T> = None | Some(value: T)

  /** The row identifier assigned by the remote store. */
  type TodoId = int

  /** The authenticated principal's identifier (`user.id`). */
  type UserId = string

  /** One row of the `todos` table: `id`, `title`, `is_complete`, `user_id`, `created_at`. */
  datatype Todo = Todo(id: TodoId, title: string, isComplete: bool, userId: UserId, createdAt: int)

  /** How an awaited remote call settles: the value it resolves to, or the error
      it rejects with (the error's `message`, which may be missing). */
  datatype Reply<+T> = Resolved(value: T) | Rejected(message: Option<string>)

  /** The fields an update request sets. */
  datatype Patch = SetComplete(isComplete: bool) | SetTitle(title: string)

  /** The remote calls of the task-list service, one per service function. */
  datatype Request =
    | FetchTodos(userId: UserId)
    | AddTodo(userId: UserId, title: string)
    | UpdateTodo(id: TodoId, patch: Patch)
    | DeleteTodo(id: TodoId)
}
