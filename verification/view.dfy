/**
 What the page derives from the task list on every render: the visible list
 (`filteredTasks`) and the completed and pending tallies beside the total.
 */
module View {
  import opened Text
  import opened Tasks
  import opened TaskStore

  /** The three values of the status drop-down. */
  datatype StatusFilter = All | Completed | Pending

  /** The status half of the visibility test. */
  predicate MatchesStatus(filter: StatusFilter, t: Task) {
    match filter
    case All => true
    case Completed => t.completed
    case Pending => !t.completed
  }

  /** The search half: the lower-cased text contains the lower-cased search
      term. */
  predicate MatchesSearch(searchTerm: string, t: Task) {
    Contains(Lower(t.text), Lower(searchTerm))
  }

  /** A task is shown when it passes both halves. */
  predicate IsShown(filter: StatusFilter, searchTerm: string, t: Task) {
    MatchesStatus(filter, t) && MatchesSearch(searchTerm, t)
  }

  /** `filteredTasks`: the tasks that pass the status filter and the search,
      in list order. A task that is shown keeps every one of its copies; a
      task that is not shown keeps none. */
  function FilteredTasks(tasks: seq<Task>, filter: StatusFilter, searchTerm: string): (r: seq<Task>)
    ensures IsSubsequence(r, tasks)
    ensures forall t :: t in r <==> t in tasks && IsShown(filter, searchTerm, t)
    ensures forall t :: multiset(r)[t] ==
              if IsShown(filter, searchTerm, t) then multiset(tasks)[t] else 0
  {
    if tasks == [] then []
    else
      assert tasks == [tasks[0]] + tasks[1..];
      if IsShown(filter, searchTerm, tasks[0])
      then [tasks[0]] + FilteredTasks(tasks[1..], filter, searchTerm)
      else FilteredTasks(tasks[1..], filter, searchTerm)
  }

  /** `completedCount`: how many tasks are completed. */
  function CompletedCount(tasks: seq<Task>): (n: nat)
    ensures n <= |tasks|
    ensures n == 0 <==> forall t :: t in tasks ==> !t.completed
  {
    if tasks == [] then 0
    else (if tasks[0].completed then 1 else 0) + CompletedCount(tasks[1..])
  }

  /** `pendingCount`: how many tasks are not completed. */
  function PendingCount(tasks: seq<Task>): (n: nat)
    ensures n <= |tasks|
    ensures n == 0 <==> forall t :: t in tasks ==> t.completed
  {
    if tasks == [] then 0
    else (if tasks[0].completed then 0 else 1) + PendingCount(tasks[1..])
  }

  /** The empty search term occurs in every text. */
  lemma EmptySearchMatches(t: Task)
    ensures MatchesSearch([], t)
  {
  }

  /** With the status filter on "all" and no search term every task is
      shown, in the original order. */
  lemma {:induction false} ShowAllIsIdentity(tasks: seq<Task>)
    ensures FilteredTasks(tasks, All, []) == tasks
  {
    if tasks != [] {
      EmptySearchMatches(tasks[0]);
      ShowAllIsIdentity(tasks[1..]);
    }
  }

  /** The search ignores case on both sides: lower-casing the term or the
      task text first does not change which tasks match. */
  lemma SearchIgnoresCase(searchTerm: string, t: Task)
    ensures MatchesSearch(Lower(searchTerm), t) == MatchesSearch(searchTerm, t)
    ensures MatchesSearch(searchTerm, t.(text := Lower(t.text))) == MatchesSearch(searchTerm, t)
  {
    LowerIdempotent(searchTerm);
    LowerIdempotent(t.text);
  }

  /** The "completed" and "pending" views split the "all" view between
      them, whatever the search term. */
  lemma {:induction false} StatusViewsPartition(tasks: seq<Task>, searchTerm: string)
    ensures |FilteredTasks(tasks, Completed, searchTerm)|
            + |FilteredTasks(tasks, Pending, searchTerm)|
            == |FilteredTasks(tasks, All, searchTerm)|
  {
    if tasks != [] {
      StatusViewsPartition(tasks[1..], searchTerm);
    }
  }

  /** Every task is either completed or pending, so the two tallies add up
      to the total shown on the page. */
  lemma {:induction false} CountsPartition(tasks: seq<Task>)
    ensures CompletedCount(tasks) + PendingCount(tasks) == |tasks|
  {
    if tasks != [] {
      CountsPartition(tasks[1..]);
    }
  }

  /** The completed tally is the length of the "completed" view with no
      search term, and likewise for pending. */
  lemma {:induction false} CountsAreUnsearchedViews(tasks: seq<Task>)
    ensures CompletedCount(tasks) == |FilteredTasks(tasks, Completed, [])|
    ensures PendingCount(tasks) == |FilteredTasks(tasks, Pending, [])|
  {
    if tasks != [] {
      EmptySearchMatches(tasks[0]);
      CountsAreUnsearchedViews(tasks[1..]);
    }
  }

  /** With unique identifiers, toggling a task that is present moves exactly
      one unit between the completed and pending tallies; the total stays. */
  lemma {:induction false} ToggleMovesOneUnit(tasks: seq<Task>, k: nat)
    requires UniqueIds(tasks)
    requires k < |tasks|
    ensures var r := ToggleTask(tasks, tasks[k].id);
            && |r| == |tasks|
            && (tasks[k].completed ==>
                  CompletedCount(r) == CompletedCount(tasks) - 1
                  && PendingCount(r) == PendingCount(tasks) + 1)
            && (!tasks[k].completed ==>
                  CompletedCount(r) == CompletedCount(tasks) + 1
                  && PendingCount(r) == PendingCount(tasks) - 1)
  {
    var id := tasks[k].id;
    var r := ToggleTask(tasks, id);
    var rest := tasks[1..];
    assert r[1..] == ToggleTask(rest, id);
    if k == 0 {
      assert !HasId(rest, id) by {
        forall i | 0 <= i < |rest|
          ensures rest[i].id != id
        {
          assert rest[i] == tasks[i + 1];
        }
      }
      ToggleAbsentIsIdentity(rest, id);
    } else {
      assert UniqueIds(rest) by {
        forall i, j | 0 <= i < j < |rest|
          ensures rest[i].id != rest[j].id
        {
          assert rest[i] == tasks[i + 1] && rest[j] == tasks[j + 1];
        }
      }
      assert rest[k - 1] == tasks[k];
      ToggleMovesOneUnit(rest, k - 1);
      assert tasks[0].id != id;
    }
  }
}
