# TaskFlow task list: a Dafny model

TaskFlow is a single-page React to-do list. All of its behaviour lives in
the `App` component of `src/App.js`. The component holds an ordered list of
task records. Its handlers add a task in front of the list (`addTask`),
flip a task's completion flag (`toggleTask`) and remove a task
(`deleteTask`). On every render it derives three things from the list:
the visible list (`filteredTasks`, a status filter AND a case-insensitive
search), the completed tally and the pending tally.

This project models that state logic as pure functions over `seq<Task>`
and proves what the handlers promise.

| file | module | what it holds |
|---|---|---|
| `text.dfy` | `Text` | JavaScript `trim`, `toLowerCase` and `includes` on `seq<char>` |
| `tasks.dfy` | `Tasks` | the `Task` record, identifier uniqueness, order-preserving subsequences |
| `task_store.dfy` | `TaskStore` | `addTask`, `toggleTask`, `deleteTask` |
| `view.dfy` | `View` | `filteredTasks`, `completedCount`, `pendingCount` |
| `session.dfy` | `Session` | the component state, its handlers as one step function, runs of events |

The clock is a parameter. `Date.now()`, which becomes a new task's
identifier, travels in the `Submit` event. The creation day that pre-fills
the date field is an argument of `Session.Init`.

Three facts about the code shape the model:

- The stored text is the raw input. Trimming only decides whether the input
  is accepted (src/App.js:26 and src/App.js:29).
- Nothing guarantees unique identifiers: they are clock readings. Uniqueness
  is proved only under the assumption that readings strictly increase
  (`Session.RunKeepsUniqueIds`). Without it, `ToggleTask` flips, and
  `DeleteTask` removes, every task that carries the identifier. Both
  contracts say so.
- There is no confirm-before-delete step. The trash button calls
  `deleteTask` directly (src/App.js:287). The model has no deletion
  workflow.

## Model

| member | source | states |
|---|---|---|
| Text.IsWhitespace | src/App.js:26 | among ASCII characters exactly the space and tab through carriage return count as whitespace for `trim`; the full set is the ECMA-262 WhiteSpace and LineTerminator code points |
| Text.Lower | src/App.js:74 | `toLowerCase` keeps the length, leaves no capital, keeps every non-capital, and maps each capital to its small letter 32 code points above |
| Text.Trim | src/App.js:26 | the result is the input with only whitespace removed at both ends, begins and ends with a non-whitespace character, and is empty exactly when the input is all whitespace |
| Text.TrimStart | src/App.js:26 | removes exactly the leading whitespace run, leaving a suffix that starts with a non-whitespace character |
| Text.TrimEnd | src/App.js:26 | removes exactly the trailing whitespace run, leaving a prefix that ends with a non-whitespace character |
| Text.Contains | src/App.js:74 | `includes` is true exactly when the needle occurs as a contiguous segment at some offset of the text; the empty needle always occurs |
| Text.LowerIdempotent | src/App.js:74 | lower-casing an already lower-cased string changes nothing |
| TaskStore.AddTask | src/App.js:25-39 | an all-whitespace text leaves the list unchanged; any other text yields a list one longer whose tail is the old list and whose head has the given id, the untrimmed text, completed false and the given priority, category and due date |
| TaskStore.AddKeepsUniqueIds | src/App.js:27-35 | adding with an id no task carries keeps identifiers unique |
| TaskStore.ToggleTask | src/App.js:41-45 | same length and ids; the completion flag flips exactly on tasks whose id matches; every other field of every task is unchanged |
| TaskStore.ToggleTwiceIsIdentity | src/App.js:42-44 | toggling the same id twice gives back the original list |
| TaskStore.ToggleAbsentIsIdentity | src/App.js:41-45 | toggling an id that no task carries is a no-op |
| TaskStore.ToggleKeepsUniqueIds | src/App.js:42-44 | toggling keeps identifiers unique |
| TaskStore.DeleteTask | src/App.js:47-49 | the result is an order-preserving subsequence holding exactly the tasks whose id differs, and it is shorter by the number of tasks carrying the id |
| TaskStore.DeleteAbsentIsIdentity | src/App.js:47-49 | deleting an id that no task carries is a no-op |
| TaskStore.DeleteIdempotent | src/App.js:47-49 | after a delete no task carries the id, so deleting it again changes nothing |
| TaskStore.DeleteKeepsUniqueIds | src/App.js:47-49 | deleting keeps the remaining identifiers unique |
| TaskStore.DeletePresentRemovesOne | src/App.js:47-49 | with unique ids, deleting a present id shortens the list by exactly one |
| TaskStore.CountIdUnique | src/App.js:47-49 | with unique ids at most one task carries any id |
| View.FilteredTasks | src/App.js:70-76 | the visible list is an order-preserving subsequence; a task is in it iff it passes the status filter and its lower-cased text contains the lower-cased search term; and a shown task keeps as many copies as the list has, a hidden one none |
| View.EmptySearchMatches | src/App.js:74 | the empty search term matches every task |
| View.ShowAllIsIdentity | src/App.js:70-76 | with filter "all" and no search term the visible list is the whole list |
| View.SearchIgnoresCase | src/App.js:74 | lower-casing the search term or the task text first does not change whether it matches |
| View.StatusViewsPartition | src/App.js:71-73 | for any search term the "completed" and "pending" views together are as long as the "all" view |
| View.CompletedCount | src/App.js:78 | the completed tally is at most the list length and is zero iff no task is completed |
| View.PendingCount | src/App.js:79 | the pending tally is at most the list length and is zero iff every task is completed |
| View.CountsPartition | src/App.js:78-79 | completed plus pending equals the total shown at src/App.js:120 |
| View.CountsAreUnsearchedViews | src/App.js:70-79 | each tally is the length of the matching status view with no search term |
| View.ToggleMovesOneUnit | src/App.js:41-45 | with unique ids, toggling a present task moves exactly one unit between the completed and pending tallies, in the direction of its old flag, and keeps the total |
| Session.Init | src/App.js:6-23 | the first state has a blank text box and today's date in the form, submitting it straight away adds nothing, and every seeded task is visible |
| Session.SeedState | src/App.js:6-10 | the three seeded tasks have unique ids, one completed and two pending |
| Session.Step | src/App.js:25-49 | only the filter event changes the filter and only the search event the search term; the list grows by at most one task and only on a submission; every task afterwards carries an id that was present before or is the submission's clock reading |
| Session.BlankFormIgnoresSubmit | src/App.js:25-26 | while the text box is blank, a submission does nothing whatever the clock reads |
| Session.ViewAndFormEventsKeepTasks | src/App.js:155-219 | typing in the search box or changing the status filter (and editing the form) never changes the task list |
| Session.SubmitBlankIsNoOp | src/App.js:25-26 | submitting an all-whitespace text changes nothing, the form included |
| Session.SubmitAccepted | src/App.js:25-39 | submitting a non-blank text prepends the new pending task, clears only the text box, and keeps filter and search |
| Session.SubmitKeepsIdsBelow | src/App.js:27-35 | a submission whose clock reading exceeds every id in the list keeps ids unique and below every later reading |
| Session.OtherEventKeepsIds | src/App.js:41-49 | an event other than a submission keeps ids unique, every id afterwards was present before, and ids stay below every later clock reading |
| Session.RunKeepsUniqueIds | src/App.js:28 | over any run of events ids stay unique, provided submission readings strictly increase and exceed the ids already present |
| Session.BuyMilkScenario | src/App.js:25-49 | adding "Buy milk" to an empty list, completing it and deleting it gives tallies (1 pending), then (1 completed), then an empty list |
| Session.FilterAndSearchScenario | src/App.js:70-76 | with pending "A" and completed "B", the "completed" view is [B] and searching "a" under "all" gives [A] |

## Left out

- Rendering: all JSX, dark mode, animations and styling (src/App.js:81-299). These are presentation.
- The add-form visibility flag (`showAddForm`, src/App.js:15, 37, 174). It only decides whether the form is drawn.
- The empty-list message (src/App.js:235-248). It picks display text from whether the search term is empty.
- `getPriorityColor` and `getCategoryIcon` (src/App.js:51-68). They are display lookups with no invariants.
- Date handling: the default due date from `new Date().toISOString()` (src/App.js:21) becomes the `today` argument of `Session.Init`. `toLocaleDateString` (src/App.js:282) is display. `dueDate` is an opaque string.
- `Date.now()` (src/App.js:28): a wall-clock call. The reading is a parameter of the `Submit` event.
- Priority, category and status filter are strings in the code. The model uses enumerations of the values the drop-downs offer, which are the only values the handlers can receive.
- React `useState`/`useEffect` scheduling and stale closures. Each handler is a pure old-state to new-state function, applied in order.
- A confirm-before-delete workflow. The code has none, so the model has none.
- Text.Lower: lower-cases only Basic Latin and Latin-1 Supplement capitals. Other scripts pass through unchanged. Case mappings that change length (such as U+0130) are not modelled.
- Text.IsWhitespace: covers the WhiteSpace and LineTerminator code points of ECMA-262 as of Unicode 15.
- Strings as UTF-16: a Dafny `char` is a Unicode scalar value, while a JavaScript string is a sequence of UTF-16 code units. A character outside the Basic Multilingual Plane is one `char` here and two code units there, and strings holding a lone surrogate cannot be represented. For well-formed strings `trim`, `toLowerCase` on Latin-1 and `includes` give the same answers, and no modelled operation depends on string length.
