/** The task records of the to-do list and the two list transformations
    the store applies to them: the `map` that flips completion and the
    `filter` that deletes. Ids are compared by value and are not assumed
    unique, so both act on EVERY task carrying the given id. */
module Tasks {

  /** One to-do record `{ id, text, completed }`. */
  datatype Task = Task(id: int, text: string, completed: bool)

  /** `{ ...task, completed: !task.completed }` when the id matches,
      the task itself otherwise. */
  function Flip(t: Task, id: int): (u: Task)
    ensures u.id == t.id && u.text == t.text
    ensures u.completed == (t.completed != (t.id == id))
  {
    if t.id == id then t.(completed := !t.completed) else t
  }

  /** `tasks.map(...)` in `toggleCompletion`: same length and order; a task
      whose id matches has its completion negated and keeps its id and text;
      every other task is left exactly as it was. */
  function ToggleSeq(s: seq<Task>, id: int): (r: seq<Task>)
    ensures |r| == |s|
    ensures forall i :: 0 <= i < |s| ==>
      r[i].id == s[i].id && r[i].text == s[i].text &&
      r[i].completed == (s[i].completed != (s[i].id == id))
    ensures forall i :: 0 <= i < |s| && s[i].id != id ==> r[i] == s[i]
  {
    if s == [] then [] else [Flip(s[0], id)] + ToggleSeq(s[1..], id)
  }

  /** The number of tasks in `s` whose id is `id`. */
  function CountId(s: seq<Task>, id: int): (n: nat)
    ensures n <= |s|
    ensures n == 0 <==> forall i :: 0 <= i < |s| ==> s[i].id != id
  {
    if s == [] then 0 else (if s[0].id == id then 1 else 0) + CountId(s[1..], id)
  }

  /** `tasks.filter(task => task.id !== taskId)` in `deleteTask`: no task
      with that id is left and the length drops by the number of matches. */
  function DeleteSeq(s: seq<Task>, id: int): (r: seq<Task>)
    ensures forall i :: 0 <= i < |r| ==> r[i].id != id
    ensures |r| == |s| - CountId(s, id)
  {
    if s == [] then []
    else
      var rest := DeleteSeq(s[1..], id);
      if s[0].id == id then rest else [s[0]] + rest
  }

  // ----- toggleCompletion -----

  /** Toggling the same id twice gives back the original list. */
  lemma ToggleTwice(s: seq<Task>, id: int)
    ensures ToggleSeq(ToggleSeq(s, id), id) == s
  {
    // Follows from the index-wise contract of ToggleSeq.
  }

  /** Toggling an id that no task carries changes nothing. */
  lemma ToggleAbsent(s: seq<Task>, id: int)
    requires CountId(s, id) == 0
    ensures ToggleSeq(s, id) == s
  {
  }

  /** Toggling acts on each part of a list separately, so the order of the
      tasks is kept. */
  lemma ToggleAppend(a: seq<Task>, b: seq<Task>, id: int)
    ensures ToggleSeq(a + b, id) == ToggleSeq(a, id) + ToggleSeq(b, id)
  {
    // Follows from the index-wise contract of ToggleSeq.
  }

  /** Toggles of two ids commute. */
  lemma ToggleCommutes(s: seq<Task>, id1: int, id2: int)
    ensures ToggleSeq(ToggleSeq(s, id1), id2) == ToggleSeq(ToggleSeq(s, id2), id1)
  {
    var a, b := ToggleSeq(ToggleSeq(s, id1), id2), ToggleSeq(ToggleSeq(s, id2), id1);
    forall i | 0 <= i < |s| ensures a[i] == b[i] {
    }
  }

  // ----- deleteTask -----

  /** Every task whose id differs survives deletion as many times as it
      occurred; none with the id does. */
  lemma {:induction false} DeleteKeepsOthers(s: seq<Task>, id: int)
    ensures forall t :: multiset(DeleteSeq(s, id))[t] == if t.id == id then 0 else multiset(s)[t]
  {
    if s != [] {
      DeleteKeepsOthers(s[1..], id);
      assert s == [s[0]] + s[1..];
    }
  }

  /** Deleting an id that no task carries changes nothing. */
  lemma {:induction false} DeleteAbsent(s: seq<Task>, id: int)
    requires CountId(s, id) == 0
    ensures DeleteSeq(s, id) == s
  {
    if s != [] {
      DeleteAbsent(s[1..], id);
    }
  }

  /** Deleting acts on each part of a list separately: the tasks that stay
      keep their relative order. */
  lemma {:induction false} DeleteAppend(a: seq<Task>, b: seq<Task>, id: int)
    ensures DeleteSeq(a + b, id) == DeleteSeq(a, id) + DeleteSeq(b, id)
  {
    if a != [] {
      var head := if a[0].id == id then [] else [a[0]];
      assert (a + b)[0] == a[0] && (a + b)[1..] == a[1..] + b;
      assert DeleteSeq(a + b, id) == head + DeleteSeq(a[1..] + b, id);
      assert DeleteSeq(a, id) == head + DeleteSeq(a[1..], id);
      DeleteAppend(a[1..], b, id);
      assert head + (DeleteSeq(a[1..], id) + DeleteSeq(b, id))
          == (head + DeleteSeq(a[1..], id)) + DeleteSeq(b, id);
    } else {
      assert a + b == b;
    }
  }

  /** Deleting an id a second time changes nothing more. */
  lemma DeleteTwice(s: seq<Task>, id: int)
    ensures DeleteSeq(DeleteSeq(s, id), id) == DeleteSeq(s, id)
  {
    DeleteAbsent(DeleteSeq(s, id), id);
  }

  /** Toggling an id and then deleting it is the same as deleting it. */
  lemma DeleteAfterToggle(s: seq<Task>, id: int)
    ensures DeleteSeq(ToggleSeq(s, id), id) == DeleteSeq(s, id)
  {
    // Follows from the contract of ToggleSeq and Dafny's automatic induction.
  }

  // ----- addTask -----

  /** Deleting the id of a task just appended, when no earlier task had
      that id, undoes the append. */
  lemma DeleteUndoesAppend(s: seq<Task>, t: Task)
    requires CountId(s, t.id) == 0
    ensures DeleteSeq(s + [t], t.id) == s
  {
    DeleteAppend(s, [t], t.id);
    DeleteAbsent(s, t.id);
  }
}
