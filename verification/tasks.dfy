/** The dashboard's task list and the values derived from it. The page keeps
    the list in one state cell and replaces it with a new list on every
    change; nothing ever removes a task. */
module Tasks {
  import opened Text

  datatype Priority = High | Medium | Low

  datatype Task = Task(id: int, text: string, done: bool, priority: Priority, due: string)

  /** The five tasks the page starts with. */
  const InitialTasks: seq<Task> := [
    Task(1, "Submit AP Chemistry lab report", false, High, "Today"),
    Task(2, "Practice SAT Math section 4", false, High, "Today"),
    Task(3, "Request rec letter from Mr. Davis", true, Medium, "Done"),
    Task(4, "Draft Common App essay intro", false, Medium, "Tomorrow"),
    Task(5, "Research MIT financial aid portal", false, Low, "This week")
  ]

  /** `a` and `b` are the same task except perhaps for `done`. */
  predicate SameButDone(a: Task, b: Task) {
    a.id == b.id && a.text == b.text && a.priority == b.priority && a.due == b.due
  }

  /** Clicking a task's checkbox: every task whose id is `id` has its `done`
      flag flipped; nothing else changes, and the order is kept. */
  function ToggleTask(tasks: seq<Task>, id: int): (r: seq<Task>)
    ensures |r| == |tasks|
    ensures forall i :: 0 <= i < |r| ==>
              SameButDone(r[i], tasks[i]) && (r[i].done != tasks[i].done <==> tasks[i].id == id)
    ensures (forall i :: 0 <= i < |tasks| ==> tasks[i].id != id) ==> r == tasks
  {
    seq(|tasks|, i requires 0 <= i < |tasks| =>
      if tasks[i].id == id then tasks[i].(done := !tasks[i].done) else tasks[i])
  }

  /** Toggling the same id twice restores the list. */
  lemma ToggleTwice(tasks: seq<Task>, id: int)
    ensures ToggleTask(ToggleTask(tasks, id), id) == tasks
  {
  }

  /** The task `addTask` creates from the input `text` at time `now`. */
  function NewTask(text: string, now: int): Task {
    Task(now, text, false, Medium, "This week")
  }

  /** Submitting the add-task form with input `draft`, where `now` stands for
      `Date.now()`. Returns the new list and the new input. Whitespace-only
      input is ignored and kept; otherwise the untrimmed input becomes a new
      task at the end of the list and the input is cleared. */
  function AddTask(tasks: seq<Task>, draft: string, now: int): (r: (seq<Task>, string))
    ensures Blank(draft) ==> r == (tasks, draft)
    ensures !Blank(draft) ==>
              |r.0| == |tasks| + 1 && r.0[..|tasks|] == tasks && r.1 == [] &&
              r.0[|tasks|] == Task(now, draft, false, Medium, "This week")
  {
    if Trim(draft) == [] then (tasks, draft)
    else (tasks + [NewTask(draft, now)], [])
  }

  /** `tasks.filter((t) => t.done).length`. */
  function CompletedCount(tasks: seq<Task>): (c: nat)
    ensures c <= |tasks|
    ensures c == 0 <==> forall i :: 0 <= i < |tasks| ==> !tasks[i].done
    ensures c == |tasks| <==> forall i :: 0 <= i < |tasks| ==> tasks[i].done
  {
    if tasks == [] then 0
    else
      var c := (if tasks[0].done then 1 else 0) + CompletedCount(tasks[1..]);
      assert forall i :: 1 <= i < |tasks| ==> tasks[i] == tasks[1..][i - 1];
      c
  }

  /** The completed count splits over a concatenation. */
  lemma {:induction false} CompletedCountAppend(a: seq<Task>, b: seq<Task>)
    ensures CompletedCount(a + b) == CompletedCount(a) + CompletedCount(b)
  {
    if a != [] {
      CompletedCountAppend(a[1..], b);
      assert (a + b)[0] == a[0];
      assert (a + b)[1..] == a[1..] + b;
    } else {
      assert a + b == b;
    }
  }

  /** Toggling an id that exactly one task has, at index `k`, moves the
      completed count by one: down if that task was done, up if it was not. */
  lemma {:induction false} ToggleUniqueCount(tasks: seq<Task>, id: int, k: nat)
    requires k < |tasks| && tasks[k].id == id
    requires forall i :: 0 <= i < |tasks| && i != k ==> tasks[i].id != id
    ensures CompletedCount(ToggleTask(tasks, id)) ==
              CompletedCount(tasks) + (if tasks[k].done then -1 else 1)
  {
    var r := ToggleTask(tasks, id);
    if k == 0 {
      assert r[1..] == tasks[1..];
    } else {
      assert tasks[0].id != id;
      ToggleUniqueCount(tasks[1..], id, k - 1);
      assert r[1..] == ToggleTask(tasks[1..], id);
    }
  }

  /** Adding a task never changes how many are done. */
  lemma AddTaskCompleted(tasks: seq<Task>, draft: string, now: int)
    ensures CompletedCount(AddTask(tasks, draft, now).0) == CompletedCount(tasks)
  {
    if !Blank(draft) {
      CompletedCountAppend(tasks, [NewTask(draft, now)]);
    }
  }

  /** `tasks.filter((t) => !t.done && t.due === "Today").length`, the number in
      the greeting "You have n tasks due today". */
  function DueTodayCount(tasks: seq<Task>): (c: nat)
    ensures c + CompletedCount(tasks) <= |tasks|
    ensures c == 0 <==> forall i :: 0 <= i < |tasks| ==> tasks[i].done || tasks[i].due != "Today"
  {
    if tasks == [] then 0
    else
      var c := (if !tasks[0].done && tasks[0].due == "Today" then 1 else 0) + DueTodayCount(tasks[1..]);
      assert forall i :: 1 <= i < |tasks| ==> tasks[i] == tasks[1..][i - 1];
      c
  }

  /** The due-today count splits over a concatenation. */
  lemma {:induction false} DueTodayCountAppend(a: seq<Task>, b: seq<Task>)
    ensures DueTodayCount(a + b) == DueTodayCount(a) + DueTodayCount(b)
  {
    if a != [] {
      var ab := a + b;
      assert ab[0] == a[0];
      assert ab[1..] == a[1..] + b;
      DueTodayCountAppend(a[1..], b);
      var h := if !a[0].done && a[0].due == "Today" then 1 else 0;
      assert DueTodayCount(ab) == h + DueTodayCount(a[1..] + b);
      assert DueTodayCount(a) == h + DueTodayCount(a[1..]);
    } else {
      assert a + b == b;
    }
  }

  /** A one-task list counts 1 exactly when that task is open and due today. */
  lemma DueTodayCountOne(t: Task)
    ensures DueTodayCount([t]) == (if !t.done && t.due == "Today" then 1 else 0)
  {
    assert [t][1..] == [];
  }

  /** A new task is due "This week", so adding one never changes the number
      due today. */
  lemma AddTaskDueToday(tasks: seq<Task>, draft: string, now: int)
    ensures DueTodayCount(AddTask(tasks, draft, now).0) == DueTodayCount(tasks)
  {
    if !Blank(draft) {
      DueTodayCountAppend(tasks, [NewTask(draft, now)]);
      DueTodayCountOne(NewTask(draft, now));
    }
  }

  /** `Math.round(completed / total * 100)`: the nearest integer to the done
      percentage, halves rounding up. The page never has an empty list. */
  function Progress(tasks: seq<Task>): (p: nat)
    requires |tasks| > 0
    ensures p <= 100
    ensures var c, n := CompletedCount(tasks), |tasks|;
            200 * c - n < 2 * n * p <= 200 * c + n
  {
    var c, n := CompletedCount(tasks), |tasks|;
    RoundHalfUp(c, n)
  }

  /** `(200 * c + n) / (2 * n)` for `c <= n`, with the bounds that make it the
      rounded percentage of `c` out of `n`. */
  function RoundHalfUp(c: nat, n: nat): (p: nat)
    requires 0 < n && c <= n
    ensures p <= 100
    ensures 200 * c - n < 2 * n * p <= 200 * c + n
  {
    RoundHalfUpBounds(c, n);
    (200 * c + n) / (2 * n)
  }

  lemma RoundHalfUpBounds(c: nat, n: nat)
    requires 0 < n && c <= n
    ensures var p := (200 * c + n) / (2 * n);
            p <= 100 && 2 * n * p <= 200 * c + n < 2 * n * p + 2 * n
  {
    var p := (200 * c + n) / (2 * n);
    assert 2 * n * p <= 200 * c + n < 2 * n * p + 2 * n;
    if p > 100 {
      MulMonotone(2 * n, 101, p);
    }
  }

  lemma MulMonotone(k: nat, a: nat, b: nat)
    requires a <= b
    ensures k * a <= k * b
  {
  }

  /** A list with every task done shows 100%. */
  lemma ProgressAllDone(tasks: seq<Task>)
    requires |tasks| > 0 && forall i :: 0 <= i < |tasks| ==> tasks[i].done
    ensures Progress(tasks) == 100
  {
    var n, p := |tasks|, Progress(tasks);
    if p < 100 {
      MulMonotone(2 * n, p, 99);
    }
  }

  /** A list with no task done shows 0%. */
  lemma ProgressNoneDone(tasks: seq<Task>)
    requires |tasks| > 0 && forall i :: 0 <= i < |tasks| ==> !tasks[i].done
    ensures Progress(tasks) == 0
  {
    var n, p := |tasks|, Progress(tasks);
    if p > 0 {
      MulMonotone(2 * n, 1, p);
    }
  }

  /** Below 200 tasks, 100% means every task is done. */
  lemma ProgressFullIffAllDone(tasks: seq<Task>)
    requires 0 < |tasks| < 200
    ensures Progress(tasks) == 100 <==> forall i :: 0 <= i < |tasks| ==> tasks[i].done
  {
    var c, n := CompletedCount(tasks), |tasks|;
    if c == n {
      ProgressAllDone(tasks);
    }
  }

  /** Up to 200 tasks, 0% means no task is done. */
  lemma ProgressZeroIffNoneDone(tasks: seq<Task>)
    requires 0 < |tasks| <= 200
    ensures Progress(tasks) == 0 <==> forall i :: 0 <= i < |tasks| ==> !tasks[i].done
  {
    var c, n := CompletedCount(tasks), |tasks|;
    if c == 0 {
      ProgressNoneDone(tasks);
    }
  }

  /** Rounding hides a single task at either end: from 200 tasks on, one task
      not done still shows 100%, and from 201 tasks on, one task done still
      shows 0%. */
  lemma ProgressRoundsAwayOne(tasks: seq<Task>)
    requires |tasks| >= 200
    ensures CompletedCount(tasks) == |tasks| - 1 ==> Progress(tasks) == 100
    ensures |tasks| > 200 && CompletedCount(tasks) == 1 ==> Progress(tasks) == 0
  {
    var c, n, p := CompletedCount(tasks), |tasks|, Progress(tasks);
    if c == 1 && p > 0 {
      MulMonotone(2 * n, 1, p);
    }
    if c == n - 1 && p < 100 {
      MulMonotone(2 * n, p, 99);
    }
  }

  /** What the user can do to the list. */
  datatype TaskAction = Toggle(id: int) | Add(draft: string, now: int)

  function ApplyAction(tasks: seq<Task>, a: TaskAction): seq<Task> {
    match a
    case Toggle(id) => ToggleTask(tasks, id)
    case Add(draft, now) => AddTask(tasks, draft, now).0
  }

  /** The list after the actions `as`, in order. */
  function Replay(tasks: seq<Task>, actions: seq<TaskAction>): seq<Task>
    decreases |actions|
  {
    if actions == [] then tasks else Replay(ApplyAction(tasks, actions[0]), actions[1..])
  }

  /** No action shortens the list, and the tasks already there keep their
      ids, texts, priorities, due labels and places. */
  lemma {:induction false} ReplayKeepsTasks(tasks: seq<Task>, actions: seq<TaskAction>)
    ensures |Replay(tasks, actions)| >= |tasks|
    ensures forall i :: 0 <= i < |tasks| ==> SameButDone(Replay(tasks, actions)[i], tasks[i])
    decreases |actions|
  {
    if actions != [] {
      var next := ApplyAction(tasks, actions[0]);
      ReplayKeepsTasks(next, actions[1..]);
      assert |next| >= |tasks|;
      assert forall i :: 0 <= i < |tasks| ==> SameButDone(next[i], tasks[i]);
    }
  }

  /** Starting from the five initial tasks, the list is never empty, so the
      progress percentage never divides by zero. */
  lemma ReachableNonEmpty(actions: seq<TaskAction>)
    ensures |Replay(InitialTasks, actions)| >= 5
  {
    ReplayKeepsTasks(InitialTasks, actions);
  }

  /** The figures the page shows for the initial list: 1 of 5 done, 20%, and
      2 tasks due today. */
  lemma InitialFigures()
    ensures CompletedCount(InitialTasks) == 1
    ensures Progress(InitialTasks) == 20
    ensures DueTodayCount(InitialTasks) == 2
  {
  }
}
