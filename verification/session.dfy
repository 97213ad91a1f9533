/**
 The `App` component's state as one value and its event handlers as one
 transition function: the task list, the new-task form fields, the status
 filter and the search term. The clock is a parameter: the timestamp that
 becomes a new task's identifier travels in the `Submit` event, and the
 creation day that pre-fills the date field is given to `Init`.
 */
module Session {
  import opened Text
  import opened Tasks
  import opened TaskStore
  import opened View

  /** The new-task form: the text box and the three pickers. */
  datatype Draft = Draft(text: string, priority: Priority, category: Category, dueDate: string)

  /** Everything the page keeps between renders. */
  datatype State = State(
    tasks: seq<Task>,
    draft: Draft,
    filter: StatusFilter,
    searchTerm: string)

  /** What the page can ask for. `Submit` carries the clock reading taken
      when the form is submitted (the Enter key or the create button). */
  datatype Event =
    | EditText(text: string)
    | ChoosePriority(priority: Priority)
    | ChooseCategory(category: Category)
    | ChooseDate(dueDate: string)
    | Submit(id: int)
    | Toggle(id: int)
    | Delete(id: int)
    | SetFilter(filter: StatusFilter)
    | SetSearch(searchTerm: string)

  /** The three tasks the page starts with. */
  function SeedTasks(): seq<Task> {
    [ Task(1, "Design new landing page", false, High, Work, "2025-06-07"),
      Task(2, "Buy groceries", false, Medium, Personal, "2025-06-06"),
      Task(3, "Review pull requests", true, High, Work, "2025-06-05") ]
  }

  /** The state after the first render: the seeded tasks, an empty form
      with priority "medium", category "personal" and the date set to
      `today`, no status filter and no search. The form starts blank, so
      submitting it straight away adds nothing, and every task is visible. */
  function Init(today: string): (s: State)
    ensures s.draft.dueDate == today && IsBlank(s.draft.text)
    ensures forall id :: Step(s, Submit(id)) == s
    ensures Visible(s) == s.tasks
  {
    var s := State(SeedTasks(), Draft([], Medium, Personal, today), All, []);
    BlankFormIgnoresSubmit(s);
    ShowAllIsIdentity(SeedTasks());
    s
  }

  /** While the text box is blank, submitting does nothing, whatever the
      clock reads. */
  lemma BlankFormIgnoresSubmit(s: State)
    requires IsBlank(s.draft.text)
    ensures forall id :: Step(s, Submit(id)) == s
  {
    forall id: int
      ensures Step(s, Submit(id)) == s
    {
      SubmitBlankIsNoOp(s, id);
    }
  }

  /** One handler call. Submitting a non-blank text adds the task and
      clears the text box; the pickers keep their values. Submitting a
      blank text does nothing at all. Only the filter event changes the
      filter and only the search event changes the search term; the list
      grows by at most one task, only on a submission, and every task
      afterwards carries an identifier that was in the list before or is
      the submission's clock reading. */
  function Step(s: State, e: Event): (r: State)
    ensures !e.SetFilter? ==> r.filter == s.filter
    ensures !e.SetSearch? ==> r.searchTerm == s.searchTerm
    ensures |r.tasks| <= |s.tasks| + (if e.Submit? then 1 else 0)
    ensures forall t :: t in r.tasks ==> HasId(s.tasks, t.id) || (e.Submit? && t.id == e.id)
  {
    match e
    case EditText(text) => s.(draft := s.draft.(text := text))
    case ChoosePriority(p) => s.(draft := s.draft.(priority := p))
    case ChooseCategory(c) => s.(draft := s.draft.(category := c))
    case ChooseDate(d) => s.(draft := s.draft.(dueDate := d))
    case Submit(id) =>
      var d := s.draft;
      if Trim(d.text) != [] then
        s.(tasks := AddTask(s.tasks, d.text, id, d.priority, d.category, d.dueDate),
           draft := d.(text := []))
      else s
    case Toggle(id) => s.(tasks := ToggleTask(s.tasks, id))
    case Delete(id) => s.(tasks := DeleteTask(s.tasks, id))
    case SetFilter(f) => s.(filter := f)
    case SetSearch(term) => s.(searchTerm := term)
  }

  /** The handler calls one after another. */
  function Run(s: State, events: seq<Event>): State
    decreases |events|
  {
    if events == [] then s else Run(Step(s, events[0]), events[1..])
  }

  /** The list the page renders. */
  function Visible(s: State): (r: seq<Task>)
    ensures IsSubsequence(r, s.tasks)
    ensures forall t :: t in r <==> t in s.tasks && IsShown(s.filter, s.searchTerm, t)
  {
    FilteredTasks(s.tasks, s.filter, s.searchTerm)
  }

  /** The clock readings of the `Submit` events, in order. */
  function SubmittedIds(events: seq<Event>): seq<int> {
    if events == [] then []
    else (if events[0].Submit? then [events[0].id] else []) + SubmittedIds(events[1..])
  }

  predicate StrictlyIncreasing(xs: seq<int>) {
    forall i, j :: 0 <= i < j < |xs| ==> xs[i] < xs[j]
  }

  /** Only `Submit`, `Toggle` and `Delete` touch the task list; editing the
      form, filtering and searching leave it alone. */
  lemma ViewAndFormEventsKeepTasks(s: State, e: Event)
    requires !e.Submit? && !e.Toggle? && !e.Delete?
    ensures Step(s, e).tasks == s.tasks
  {
  }

  /** Submitting a blank text changes nothing: not the list, not the
      form. */
  lemma SubmitBlankIsNoOp(s: State, id: int)
    requires IsBlank(s.draft.text)
    ensures Step(s, Submit(id)) == s
  {
  }

  /** Submitting a non-blank text puts one new pending task in front of the
      list, clears only the text box, and leaves filter and search as they
      were. */
  lemma SubmitAccepted(s: State, id: int)
    requires !IsBlank(s.draft.text)
    ensures var r := Step(s, Submit(id));
            && r.tasks == [Task(id, s.draft.text, false, s.draft.priority,
                                s.draft.category, s.draft.dueDate)] + s.tasks
            && r.draft == s.draft.(text := [])
            && r.filter == s.filter
            && r.searchTerm == s.searchTerm
  {
  }

  /** Every identifier in the list is below every reading in `later`. */
  ghost predicate IdsBelow(tasks: seq<Task>, later: seq<int>) {
    forall t, x :: t in tasks && x in later ==> t.id < x
  }

  /** A submission whose reading exceeds every identifier in the list, and
      is below every later reading, keeps identifiers unique and below the
      later readings. */
  lemma SubmitKeepsIdsBelow(s: State, id: int, later: seq<int>)
    requires UniqueIds(s.tasks)
    requires forall t :: t in s.tasks ==> t.id < id
    requires forall x :: x in later ==> id < x
    requires IdsBelow(s.tasks, later)
    ensures UniqueIds(Step(s, Submit(id)).tasks)
    ensures IdsBelow(Step(s, Submit(id)).tasks, later)
  {
    if IsBlank(s.draft.text) {
      SubmitBlankIsNoOp(s, id);
    } else {
      SubmitAccepted(s, id);
      var d := s.draft;
      PrependKeepsIdsBelow(s.tasks, Task(id, d.text, false, d.priority, d.category, d.dueDate), later);
    }
  }

  /** Putting in front a task whose identifier lies between the list's
      identifiers and the later readings keeps both properties. */
  lemma PrependKeepsIdsBelow(tasks: seq<Task>, t: Task, later: seq<int>)
    requires UniqueIds(tasks)
    requires forall u :: u in tasks ==> u.id < t.id
    requires forall x :: x in later ==> t.id < x
    requires IdsBelow(tasks, later)
    ensures UniqueIds([t] + tasks)
    ensures IdsBelow([t] + tasks, later)
  {
    var r := [t] + tasks;
    forall i, j | 0 <= i < j < |r|
      ensures r[i].id != r[j].id
    {
      assert r[j] == tasks[j - 1];
      if i == 0 {
        assert tasks[j - 1] in tasks;
      } else {
        assert r[i] == tasks[i - 1];
      }
    }
    forall u, x | u in r && x in later
      ensures u.id < x
    {
      if u != t {
        assert u in tasks;
      }
    }
  }

  /** Every event other than a submission keeps identifiers unique and
      introduces no identifier that was not in the list before. */
  lemma OtherEventKeepsIds(s: State, e: Event, later: seq<int>)
    requires !e.Submit?
    requires UniqueIds(s.tasks)
    requires IdsBelow(s.tasks, later)
    ensures UniqueIds(Step(s, e).tasks)
    ensures forall t :: t in Step(s, e).tasks ==> HasId(s.tasks, t.id)
    ensures IdsBelow(Step(s, e).tasks, later)
  {
    var r := Step(s, e);
    if e.Toggle? {
      ToggleKeepsUniqueIds(s.tasks, e.id);
      forall t, x | t in r.tasks && x in later
        ensures t.id < x
      {
        var i :| 0 <= i < |r.tasks| && r.tasks[i] == t;
        assert s.tasks[i] in s.tasks;
      }
    } else if e.Delete? {
      DeleteKeepsUniqueIds(s.tasks, e.id);
    }
  }

  /** The readings of a run split into the first event's and the rest's. */
  lemma SubmittedIdsSplit(events: seq<Event>)
    requires events != []
    ensures events[0].Submit? ==>
              SubmittedIds(events) == [events[0].id] + SubmittedIds(events[1..])
    ensures !events[0].Submit? ==>
              SubmittedIds(events) == SubmittedIds(events[1..])
  {
  }

  /** Identifiers stay unique through any run of events, provided the
      clock readings of the submissions strictly increase and exceed every
      identifier already in the list. The code relies on this of
      `Date.now()` without checking it. */
  lemma {:induction false} RunKeepsUniqueIds(s: State, events: seq<Event>)
    requires UniqueIds(s.tasks)
    requires StrictlyIncreasing(SubmittedIds(events))
    requires IdsBelow(s.tasks, SubmittedIds(events))
    ensures UniqueIds(Run(s, events).tasks)
    decreases |events|
  {
    if events != [] {
      var e := events[0];
      var all := SubmittedIds(events);
      var later := SubmittedIds(events[1..]);
      SubmittedIdsSplit(events);
      if e.Submit? {
        assert all == [e.id] + later;
        forall x | x in later
          ensures e.id < x
        {
          var j :| 0 <= j < |later| && later[j] == x;
          assert all[0] == e.id && all[j + 1] == x;
        }
        assert e.id in all;
        forall x | x in later
          ensures x in all
        {
          var j :| 0 <= j < |later| && later[j] == x;
          assert all[j + 1] == x;
        }
        forall i, j | 0 <= i < j < |later|
          ensures later[i] < later[j]
        {
          assert all[i + 1] == later[i] && all[j + 1] == later[j];
        }
        SubmitKeepsIdsBelow(s, e.id, later);
      } else {
        OtherEventKeepsIds(s, e, later);
      }
      RunKeepsUniqueIds(Step(s, e), events[1..]);
    }
  }

  /** The seeded list has unique identifiers, one completed task and two
      pending ones. */
  lemma SeedState()
    ensures var t := SeedTasks();
            && UniqueIds(t)
            && |t| == 3
            && CompletedCount(t) == 1
            && PendingCount(t) == 2
  {
    var t := SeedTasks();
    var t1 := t[1..];
    var t2 := t1[1..];
    assert t2 == [t[2]] && t2[1..] == [];
    assert CompletedCount(t2) == 1 && PendingCount(t2) == 0;
    assert CompletedCount(t1) == 1 && PendingCount(t1) == 1;
  }

  /** Adding "Buy milk" to an empty list, completing it and deleting it:
      the tallies go from 1 pending to 1 completed, and the delete button
      removes the task at once. */
  lemma BuyMilkScenario(id: int)
    ensures var s0 := State([], Draft("Buy milk", Medium, Personal, "2025-06-10"), All, []);
            var s1 := Step(s0, Submit(id));
            var s2 := Step(s1, Toggle(id));
            var s3 := Step(s2, Delete(id));
            && |s1.tasks| == 1 && CompletedCount(s1.tasks) == 0 && PendingCount(s1.tasks) == 1
            && s1.draft.text == []
            && |s2.tasks| == 1 && CompletedCount(s2.tasks) == 1 && PendingCount(s2.tasks) == 0
            && s3.tasks == []
  {
    var s0 := State([], Draft("Buy milk", Medium, Personal, "2025-06-10"), All, []);
    var t := Task(id, "Buy milk", false, Medium, Personal, "2025-06-10");
    assert !IsWhitespace("Buy milk"[0]);
    SubmitAccepted(s0, id);
    var s1 := Step(s0, Submit(id));
    assert s1.tasks == [t];
    var s2 := Step(s1, Toggle(id));
    assert s2.tasks == [t.(completed := true)];
    var s3 := Step(s2, Delete(id));
    assert |s3.tasks| == 0;
  }

  /** With a pending "A" and a completed "B", the "completed" view shows
      only "B", and searching for "a" under "all" shows only "A". */
  lemma FilterAndSearchScenario()
    ensures var a := Task(1, "A", false, Medium, Personal, "2025-06-10");
            var b := Task(2, "B", true, Medium, Personal, "2025-06-10");
            && FilteredTasks([a, b], Completed, []) == [b]
            && FilteredTasks([a, b], All, "a") == [a]
  {
    var a := Task(1, "A", false, Medium, Personal, "2025-06-10");
    var b := Task(2, "B", true, Medium, Personal, "2025-06-10");
    EmptySearchMatches(b);
    assert Lower("A") == "a";
    assert Lower("B") == "b";
    assert IsPrefix("a", Lower("A")[0..]);
    assert "b"[..1][0] != "a"[0];
    assert !Contains("b"[1..], "a");
    assert !Contains("b", "a");
  }
}
