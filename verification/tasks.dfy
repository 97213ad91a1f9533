/**
 The task record and the facts about task lists that the store and the view
 share: identifiers, their uniqueness, and order-preserving subsequences.
 */
module Tasks {

  /** The three values the priority picker offers. */
  datatype Priority = Low | Medium | High

  /** The four values the category picker offers. */
  datatype Category = Work | Personal | Health | Learning

  /** One to-do item. `id` is a millisecond timestamp taken when the task is
      created (or a small literal for the seeded tasks); `dueDate` is the
      `YYYY-MM-DD` text of the date input, kept as an opaque string. */
  datatype Task = Task(
    id: int,
    text: string,
    completed: bool,
    priority: Priority,
    category: Category,
    dueDate: string)

  /** Some task in the list carries `id`. */
  predicate HasId(tasks: seq<Task>, id: int) {
    exists i :: 0 <= i < |tasks| && tasks[i].id == id
  }

  /** No two tasks in the list share an identifier. */
  predicate UniqueIds(tasks: seq<Task>) {
    forall i, j :: 0 <= i < j < |tasks| ==> tasks[i].id != tasks[j].id
  }

  /** How many tasks carry `id`. */
  function CountId(tasks: seq<Task>, id: int): (n: nat)
    ensures n <= |tasks|
    ensures n == 0 <==> !HasId(tasks, id)
  {
    if tasks == [] then 0
    else (if tasks[0].id == id then 1 else 0) + CountId(tasks[1..], id)
  }

  /** `sub` is obtained from `s` by dropping elements, keeping the order of
      the rest. */
  ghost predicate IsSubsequence<T>(sub: seq<T>, s: seq<T>)
    decreases |s|
  {
    if sub == [] then true
    else if s == [] then false
    else if sub[0] == s[0] then IsSubsequence(sub[1..], s[1..])
    else IsSubsequence(sub, s[1..])
  }

  /** A subsequence only holds elements of the original and is no longer. */
  lemma {:induction false} SubsequenceElements<T>(sub: seq<T>, s: seq<T>)
    requires IsSubsequence(sub, s)
    ensures |sub| <= |s|
    ensures forall x :: x in sub ==> x in s
    decreases |s|
  {
    if sub != [] {
      if sub[0] == s[0] {
        SubsequenceElements(sub[1..], s[1..]);
        assert forall x :: x in sub ==> x == sub[0] || x in sub[1..];
      } else {
        SubsequenceElements(sub, s[1..]);
      }
      assert forall x :: x in s[1..] ==> x in s;
    }
  }

  /** Dropping elements of a list with unique identifiers keeps them
      unique. */
  lemma {:induction false} SubsequenceKeepsUniqueIds(sub: seq<Task>, s: seq<Task>)
    requires IsSubsequence(sub, s)
    requires UniqueIds(s)
    ensures UniqueIds(sub)
    decreases |s|
  {
    if sub != [] {
      assert UniqueIds(s[1..]) by {
        forall i, j | 0 <= i < j < |s[1..]|
          ensures s[1..][i].id != s[1..][j].id
        {
          assert s[1..][i] == s[i + 1] && s[1..][j] == s[j + 1];
        }
      }
      if sub[0] == s[0] {
        SubsequenceKeepsUniqueIds(sub[1..], s[1..]);
        SubsequenceElements(sub[1..], s[1..]);
        forall j | 0 < j < |sub|
          ensures sub[0].id != sub[j].id
        {
          assert sub[j] in sub[1..];
          var m :| 0 <= m < |s[1..]| && s[1..][m] == sub[j];
          assert s[m + 1] == sub[j];
        }
        forall i, j | 0 <= i < j < |sub|
          ensures sub[i].id != sub[j].id
        {
          if i > 0 {
            assert sub[1..][i - 1] == sub[i] && sub[1..][j - 1] == sub[j];
          }
        }
      } else {
        SubsequenceKeepsUniqueIds(sub, s[1..]);
      }
    }
  }
}
