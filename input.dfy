/** The add-task form: the typed title and the busy flag around the awaited `onAdd`. */
module Input {
  import opened Todos
  import opened Strings

  /** What submitting `title` passes to `onAdd`: its trimmed text, or nothing
      when that text is empty. */
  function AddArgument(title: string): (arg: Option<string>)
    ensures arg.None? <==> AllSpace(title)
    ensures arg.Some? ==> arg.value == Trim(title) && arg.value != [] &&
                          !IsSpace(arg.value[0]) && !IsSpace(arg.value[|arg.value| - 1])
  {
    var value := Trim(title);
    if value == [] then None else Some(value)
  }

  /** Submitting the same text with extra white space at its end sends the same title. */
  lemma AddArgumentIgnoresTrailingSpace(title: string, w: string)
    requires AllSpace(w)
    ensures AddArgument(title + w) == AddArgument(title)
  {
    TrimIgnoresAppendedSpace(title, w);
  }

  class TodoInput {
    var title: string
    var busy: bool

    constructor ()
      ensures title == [] && !busy
    {
      title := [];
      busy := false;
    }

    /** The input's change handler. */
    method Type(text: string)
      modifies this`title
      ensures title == text
    {
      title := text;
    }

    /** Submit. A blank title returns at once: no call, nothing changes.
        Otherwise `onAdd` is called once with the trimmed title while busy is
        set; the title is cleared only when the call resolves, and busy is
        cleared on both paths. There is no catch: the handler settles as
        `onAdd` did, so a rejection reaches the handler's own caller. */
    method HandleAdd(onAdd: Reply<()>) returns (call: Option<string>, busyDuringCall: bool, settled: Reply<()>)
      modifies this
      ensures call == AddArgument(old(title))
      ensures call.None? ==> title == old(title) && busy == old(busy) && settled == Resolved(())
      ensures call.Some? ==> settled == onAdd
      ensures call.Some? ==> busyDuringCall && !busy
      ensures call.Some? ==> title == if onAdd.Resolved? then [] else old(title)
    {
      var value := Trim(title);
      if value == [] {
        return None, false, Resolved(());
      }
      busy := true;
      call := Some(value);
      busyDuringCall := busy;
      if onAdd.Resolved? {
        title := [];
      }
      busy := false;
      settled := onAdd;
    }
  }
}
