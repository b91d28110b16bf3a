/** One row of the list with its inline title editor: edit mode, the draft
    title and the busy flag around the awaited `onRename`. */
module Item {
  import opened Todos
  import opened Strings

  /** The rename a save asks for: `(todo.id, draft.trim())`. */
  datatype Rename = Rename(id: TodoId, title: string)

  /** What a save with `draft` does for a todo titled `current`: nothing when
      the draft is blank or equal, untrimmed, to the current title; otherwise a
      rename to the trimmed draft. */
  function SaveTitle(draft: string, current: string): (r: Option<string>)
    ensures r.None? <==> AllSpace(draft) || draft == current
    ensures r.Some? ==> r.value == Trim(draft) && r.value != [] &&
                        !IsSpace(r.value[0]) && !IsSpace(r.value[|r.value| - 1])
  {
    if Trim(draft) == [] || draft == current then None else Some(Trim(draft))
  }

  /** The comparison uses the untrimmed draft: a draft that is the current
      title plus trailing white space still asks for a rename, to the trimmed
      current title (the very same title when it is already trimmed). */
  lemma TrailingSpaceStillRenames(current: string, w: string)
    requires w != [] && AllSpace(w) && !AllSpace(current)
    ensures SaveTitle(current + w, current) == Some(Trim(current))
  {
    TrimIgnoresAppendedSpace(current, w);
    assert |current + w| > |current|;
  }

  class TodoItem {
    var todo: Todo
    var editing: bool
    var title: string
    var busy: bool

    /** The draft starts as the todo's title, out of edit mode. */
    constructor (todo: Todo)
      ensures this.todo == todo && !editing && title == todo.title && !busy
    {
      this.todo := todo;
      editing := false;
      title := todo.title;
      busy := false;
    }

    /** A new `todo` prop: the draft keeps its value (it was only initialised from the first prop). */
    method Receive(t: Todo)
      modifies this`todo
      ensures todo == t
    {
      todo := t;
    }

    /** The Edit button. */
    method Edit()
      modifies this`editing
      ensures editing
    {
      editing := true;
    }

    /** The Cancel button: leaves edit mode; the draft is kept. */
    method Cancel()
      modifies this`editing
      ensures !editing
    {
      editing := false;
    }

    /** The draft input's change handler. */
    method Type(text: string)
      modifies this`title
      ensures title == text
    {
      title := text;
    }

    /** Save. A blank draft, or one equal to the current title, leaves edit
        mode without a call. Otherwise `onRename` is called with the todo's id
        and the trimmed draft while busy is set; edit mode ends only when the
        call resolves, and busy is cleared on both paths. There is no catch:
        the handler settles as `onRename` did. */
    method Save(onRename: Reply<()>) returns (call: Option<Rename>, busyDuringCall: bool, settled: Reply<()>)
      modifies this`editing, this`busy
      ensures SaveTitle(title, todo.title).None? ==>
                call == None && !editing && busy == old(busy) && settled == Resolved(())
      ensures SaveTitle(title, todo.title).Some? ==>
                call == Some(Rename(todo.id, SaveTitle(title, todo.title).value)) &&
                busyDuringCall && !busy && settled == onRename &&
                editing == if onRename.Resolved? then false else old(editing)
    {
      if Trim(title) == [] || title == todo.title {
        editing := false;
        return None, false, Resolved(());
      }
      busy := true;
      call := Some(Rename(todo.id, Trim(title)));
      busyDuringCall := busy;
      if onRename.Resolved? {
        editing := false;
      }
      busy := false;
      settled := onRename;
    }

    /** The draft input's key handler: Enter saves, Escape leaves edit mode,
        other keys do nothing. The save is not awaited, so how it settles is
        not passed on. */
    method KeyDown(key: string, onRename: Reply<()>) returns (call: Option<Rename>, busyDuringCall: bool)
      modifies this`editing, this`busy
      ensures key == "Escape" ==> call == None && !editing && busy == old(busy)
      ensures key != "Enter" && key != "Escape" ==> call == None && editing == old(editing) && busy == old(busy)
      ensures key == "Enter" && SaveTitle(title, todo.title).None? ==> call == None && !editing && busy == old(busy)
      ensures key == "Enter" && SaveTitle(title, todo.title).Some? ==>
                call == Some(Rename(todo.id, SaveTitle(title, todo.title).value)) &&
                busyDuringCall && !busy &&
                editing == if onRename.Resolved? then false else old(editing)
    {
      call, busyDuringCall := None, false;
      if key == "Enter" {
        var settled;
        call, busyDuringCall, settled := Save(onRename);
      }
      if key == "Escape" {
        editing := false;
      }
    }
  }
}
