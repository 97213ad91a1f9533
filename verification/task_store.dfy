/**
 The three handlers that change the task list: `addTask`, `toggleTask` and
 `deleteTask`. Each is a pure function from the old list to the new one; the
 identifier that `addTask` draws from the clock is a parameter.
 */
module TaskStore {
  import opened Text
  import opened Tasks

  /** `addTask`: a text that trims to nothing is refused and the list stays
      as it is; otherwise a new, not yet completed task holding the text as
      typed (untrimmed) goes in front of the list. */
  function AddTask(
    tasks: seq<Task>, text: string, id: int,
    priority: Priority, category: Category, dueDate: string): (r: seq<Task>)
    ensures IsBlank(text) ==> r == tasks
    ensures !IsBlank(text) ==>
              && |r| == |tasks| + 1
              && r[1..] == tasks
              && r[0].id == id
              && r[0].text == text
              && !r[0].completed
              && r[0].priority == priority
              && r[0].category == category
              && r[0].dueDate == dueDate
  {
    if Trim(text) != [] then
      [Task(id, text, false, priority, category, dueDate)] + tasks
    else
      tasks
  }

  /** The task with its completion flag flipped when it carries `id`. */
  function Flip(t: Task, id: int): Task {
    if t.id == id then t.(completed := !t.completed) else t
  }

  /** `toggleTask`: every task whose identifier is `id` has its completion
      flag flipped; nothing else changes, and the order is kept. */
  function ToggleTask(tasks: seq<Task>, id: int): (r: seq<Task>)
    ensures |r| == |tasks|
    ensures forall i :: 0 <= i < |tasks| ==>
              && r[i].id == tasks[i].id
              && r[i].completed == (tasks[i].completed != (tasks[i].id == id))
              && r[i] == tasks[i].(completed := r[i].completed)
  {
    if tasks == [] then []
    else [Flip(tasks[0], id)] + ToggleTask(tasks[1..], id)
  }

  /** `deleteTask`: the tasks whose identifier is not `id`, in their
      original order. */
  function DeleteTask(tasks: seq<Task>, id: int): (r: seq<Task>)
    ensures IsSubsequence(r, tasks)
    ensures forall t :: t in r <==> t in tasks && t.id != id
    ensures |r| == |tasks| - CountId(tasks, id)
  {
    if tasks == [] then []
    else if tasks[0].id == id then DeleteTask(tasks[1..], id)
    else [tasks[0]] + DeleteTask(tasks[1..], id)
  }

  /** A new task whose identifier is fresh keeps the identifiers unique. */
  lemma AddKeepsUniqueIds(
    tasks: seq<Task>, text: string, id: int,
    priority: Priority, category: Category, dueDate: string)
    requires UniqueIds(tasks)
    requires !HasId(tasks, id)
    ensures UniqueIds(AddTask(tasks, text, id, priority, category, dueDate))
  {
    var r := AddTask(tasks, text, id, priority, category, dueDate);
    if !IsBlank(text) {
      forall i, j | 0 <= i < j < |r|
        ensures r[i].id != r[j].id
      {
        assert r[j] == tasks[j - 1];
        if i > 0 {
          assert r[i] == tasks[i - 1];
        }
      }
    }
  }

  /** Toggling the same identifier twice gives back the original list. */
  lemma ToggleTwiceIsIdentity(tasks: seq<Task>, id: int)
    ensures ToggleTask(ToggleTask(tasks, id), id) == tasks
  {
  }

  /** Toggling an identifier that no task carries changes nothing. */
  lemma ToggleAbsentIsIdentity(tasks: seq<Task>, id: int)
    requires !HasId(tasks, id)
    ensures ToggleTask(tasks, id) == tasks
  {
  }

  /** Toggling keeps every identifier where it was, so it keeps them
      unique. */
  lemma ToggleKeepsUniqueIds(tasks: seq<Task>, id: int)
    requires UniqueIds(tasks)
    ensures UniqueIds(ToggleTask(tasks, id))
  {
  }

  /** Deleting an identifier that no task carries changes nothing. */
  lemma {:induction false} DeleteAbsentIsIdentity(tasks: seq<Task>, id: int)
    requires !HasId(tasks, id)
    ensures DeleteTask(tasks, id) == tasks
  {
    if tasks != [] {
      assert !HasId(tasks[1..], id) by {
        forall i | 0 <= i < |tasks[1..]|
          ensures tasks[1..][i].id != id
        {
          assert tasks[1..][i] == tasks[i + 1];
        }
      }
      DeleteAbsentIsIdentity(tasks[1..], id);
      assert tasks[0].id != id;
    }
  }

  /** After a delete no task carries the identifier, so a second delete of
      the same identifier changes nothing. */
  lemma DeleteIdempotent(tasks: seq<Task>, id: int)
    ensures !HasId(DeleteTask(tasks, id), id)
    ensures DeleteTask(DeleteTask(tasks, id), id) == DeleteTask(tasks, id)
  {
    var r := DeleteTask(tasks, id);
    assert forall i :: 0 <= i < |r| ==> r[i] in r;
    DeleteAbsentIsIdentity(r, id);
  }

  /** Deleting keeps the remaining identifiers unique. */
  lemma DeleteKeepsUniqueIds(tasks: seq<Task>, id: int)
    requires UniqueIds(tasks)
    ensures UniqueIds(DeleteTask(tasks, id))
  {
    SubsequenceKeepsUniqueIds(DeleteTask(tasks, id), tasks);
  }

  /** With unique identifiers, deleting a present task shortens the list by
      exactly one. */
  lemma {:induction false} DeletePresentRemovesOne(tasks: seq<Task>, id: int)
    requires UniqueIds(tasks)
    requires HasId(tasks, id)
    ensures |DeleteTask(tasks, id)| == |tasks| - 1
  {
    CountIdUnique(tasks, id);
  }

  /** With unique identifiers at most one task carries any identifier. */
  lemma {:induction false} CountIdUnique(tasks: seq<Task>, id: int)
    requires UniqueIds(tasks)
    ensures CountId(tasks, id) <= 1
  {
    if tasks != [] {
      assert UniqueIds(tasks[1..]) by {
        forall i, j | 0 <= i < j < |tasks[1..]|
          ensures tasks[1..][i].id != tasks[1..][j].id
        {
          assert tasks[1..][i] == tasks[i + 1] && tasks[1..][j] == tasks[j + 1];
        }
      }
      CountIdUnique(tasks[1..], id);
      if tasks[0].id == id {
        assert !HasId(tasks[1..], id) by {
          forall i | 0 <= i < |tasks[1..]|
            ensures tasks[1..][i].id != id
          {
            assert tasks[1..][i] == tasks[i + 1];
          }
        }
      }
    }
  }
}
