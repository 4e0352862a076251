/** The task store of the page: the closure variable `tasks` and the
    `localStorage` slot `todoTasks` that `saveTasks` overwrites after every
    mutation. The slot is modelled as the list it holds (`None` while the key
    is unset); serialising to JSON and parsing it back is taken to give the
    same list. */
module TodoStore {
  import opened Wrappers
  import opened Text
  import opened Tasks

  class TaskStore {
    /** The in-memory list, in insertion order. */
    var tasks: seq<Task>
    /** The contents of the storage slot. */
    var stored: Option<seq<Task>>

    /** The storage slot holds exactly the in-memory list. */
    predicate Mirrored()
      reads this
    {
      stored == Some(tasks)
    }

    /** Page start-up, before `loadTasks`: the list is empty, and the slot
        holds whatever an earlier visit left there. */
    constructor (slot: Option<seq<Task>>)
      ensures tasks == [] && stored == slot
    {
      tasks := [];
      stored := slot;
    }

    /** `loadTasks`: take the stored snapshot when there is one; otherwise
        keep the list as it is. Loading right after a save gives the same
        list back. */
    method Load()
      modifies this
      ensures stored == old(stored)
      ensures old(stored).Some? ==> tasks == old(stored).value
      ensures old(stored).None? ==> tasks == old(tasks)
      ensures old(Mirrored()) ==> tasks == old(tasks)
      ensures Mirrored() <==> stored.Some?
    {
      if stored.Some? {
        tasks := stored.value;
      }
    }

    /** `saveTasks`: overwrite the slot with the whole list. */
    method Save()
      modifies this
      ensures tasks == old(tasks)
      ensures Mirrored()
    {
      stored := Some(tasks);
    }

    /** `addTask`: trim the input; when nothing is left, change nothing
        (not even the slot); otherwise append an incomplete task whose id is
        the clock reading `now` and save. */
    method Add(input: string, now: int)
      modifies this
      ensures Trim(input) == [] ==> tasks == old(tasks) && stored == old(stored)
      ensures Trim(input) != [] ==>
        tasks == old(tasks) + [Task(now, Trim(input), false)] && Mirrored()
    {
      var text := Trim(input);
      if text != [] {
        var task := Task(now, text, false);
        tasks := tasks + [task];
        Save();
      }
    }

    /** `toggleCompletion`: flip the completion of every task with the id
        and save, whether or not any task has it. */
    method Toggle(id: int)
      modifies this
      ensures tasks == ToggleSeq(old(tasks), id)
      ensures Mirrored()
    {
      tasks := ToggleSeq(tasks, id);
      Save();
    }

    /** `deleteTask`: drop every task with the id and save, whether or not
        any task has it. */
    method Delete(id: int)
      modifies this
      ensures tasks == DeleteSeq(old(tasks), id)
      ensures Mirrored()
    {
      tasks := DeleteSeq(tasks, id);
      Save();
    }
  }

  /** A session on an empty slot: add "Buy milk" at clock `t1` and
      "Walk dog" at clock `t2`, toggle the first and delete the second; a
      later page load restores what was saved. When both clock readings are
      the same millisecond the two tasks share an id, so the toggle flips
      both and the delete removes both. */
  method Session(t1: int, t2: int) returns (restored: seq<Task>)
    ensures t1 != t2 ==> restored == [Task(t1, "Buy milk", true)]
    ensures t1 == t2 ==> restored == []
  {
    var page := new TaskStore(None);
    page.Load();
    assert page.tasks == [];
    TrimKeepsTrimmed("Buy milk");
    TrimKeepsTrimmed("Walk dog");
    TrimIsCore("   ", 0, 0);
    page.Add("   ", t1);
    assert page.tasks == [];
    page.Add("Buy milk", t1);
    page.Add("Walk dog", t2);
    assert page.tasks == [Task(t1, "Buy milk", false), Task(t2, "Walk dog", false)];
    page.Toggle(t1);
    page.Delete(t2);
    var later := new TaskStore(page.stored);
    later.Load();
    restored := later.tasks;
  }
}
