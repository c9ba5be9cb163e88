/**
  The task records of the task screen and the list transforms its handlers build
  (app/tasks.tsx). Every transform is a pure function of the old list; the
  screen replaces its `tasks` state with the result.
 */
module TaskList {
  import opened Wrappers
  import opened Text

  datatype Priority = P0 | P1 | P2 | P3

  /**
    A task. `id` and `createdAt` come from the clock in the app and are
    parameters here; nothing makes ids unique.
   */
  datatype Task = Task(
    id: string,
    text: string,
    completed: bool,
    createdAt: string,
    category: string,
    priority: Option<Priority>)

  /** `a` is obtained from `b` by deleting elements, keeping the order of the rest. */
  predicate IsSubsequence<T(==)>(a: seq<T>, b: seq<T>)
    decreases |b|
  {
    a == [] || (b != [] && ((a[0] == b[0] && IsSubsequence(a[1..], b[1..])) || IsSubsequence(a, b[1..])))
  }

  /** `xs.filter(keep)`: the elements that pass, in their original order. */
  function Filter<T>(xs: seq<T>, keep: T -> bool): (r: seq<T>)
    ensures |r| <= |xs|
  {
    if xs == [] then []
    else (if keep(xs[0]) then [xs[0]] else []) + Filter(xs[1..], keep)
  }

  /** An element is kept exactly when it is in the list and passes. */
  lemma {:induction false} FilterMembers<T(!new)>(xs: seq<T>, keep: T -> bool)
    ensures forall x :: x in Filter(xs, keep) <==> x in xs && keep(x)
  {
    if xs != [] {
      FilterMembers(xs[1..], keep);
      assert xs == [xs[0]] + xs[1..];
    }
  }

  /** Each kept element keeps all its copies; each other element loses all of them. */
  lemma {:induction false} FilterCount<T(!new)>(xs: seq<T>, keep: T -> bool)
    ensures forall x :: multiset(Filter(xs, keep))[x] == if keep(x) then multiset(xs)[x] else 0
  {
    if xs != [] {
      FilterCount(xs[1..], keep);
      assert xs == [xs[0]] + xs[1..];
    }
  }

  /** The kept elements keep their relative order. */
  lemma {:induction false} FilterSubsequence<T>(xs: seq<T>, keep: T -> bool)
    ensures IsSubsequence(Filter(xs, keep), xs)
  {
    if xs != [] {
      var rest := Filter(xs[1..], keep);
      FilterSubsequence(xs[1..], keep);
      if keep(xs[0]) {
        assert ([xs[0]] + rest)[1..] == rest;
      } else {
        assert Filter(xs, keep) == rest;
      }
    }
  }

  /** Filtering distributes over concatenation. */
  lemma {:induction false} FilterConcat<T>(a: seq<T>, b: seq<T>, keep: T -> bool)
    ensures Filter(a + b, keep) == Filter(a, keep) + Filter(b, keep)
  {
    if a == [] {
      assert a + b == b;
    } else {
      var ab := a + b;
      assert ab[0] == a[0] && ab[1..] == a[1..] + b;
      FilterConcat(a[1..], b, keep);
      var head := if keep(a[0]) then [a[0]] else [];
      assert Filter(ab, keep) == head + Filter(ab[1..], keep);
      assert Filter(a, keep) == head + Filter(a[1..], keep);
    }
  }

  /** A filter that every element passes returns the list unchanged. */
  lemma {:induction false} FilterKeepsAll<T(!new)>(xs: seq<T>, keep: T -> bool)
    requires forall x :: x in xs ==> keep(x)
    ensures Filter(xs, keep) == xs
  {
    if xs != [] {
      assert xs[0] in xs;
      forall x | x in xs[1..] ensures keep(x) {
        assert x in xs;
      }
      FilterKeepsAll(xs[1..], keep);
    }
  }

  /** addTask (app/tasks.tsx:1483-1497). */
  function AddTask(tasks: seq<Task>, input: string, id: string, createdAt: string, category: string): (r: seq<Task>)
    ensures IsBlank(input) ==> r == tasks
    ensures !IsBlank(input) ==> |r| == |tasks| + 1 && r[..|tasks|] == tasks
    ensures !IsBlank(input) ==>
      && r[|tasks|].id == id && r[|tasks|].text == input && !r[|tasks|].completed
      && r[|tasks|].createdAt == createdAt && r[|tasks|].category == category
      && r[|tasks|].priority == None
  {
    if Trim(input) == "" then tasks
    else tasks + [Task(id, input, false, createdAt, category, None)]
  }

  /** toggleTask (app/tasks.tsx:1514-1521): `completed` flips on the tasks with that id and nowhere else. */
  function ToggleTask(tasks: seq<Task>, id: string): (r: seq<Task>)
    ensures |r| == |tasks|
    ensures forall i :: 0 <= i < |r| ==> r[i] == tasks[i].(completed := r[i].completed)
    ensures forall i :: 0 <= i < |r| ==> (r[i].completed != tasks[i].completed <==> tasks[i].id == id)
  {
    seq(|tasks|, i requires 0 <= i < |tasks| =>
      if tasks[i].id == id then tasks[i].(completed := !tasks[i].completed) else tasks[i])
  }

  /** updateTask (app/tasks.tsx:1637-1643): the text of the tasks with that id is replaced; blank text is accepted. */
  function UpdateTask(tasks: seq<Task>, id: string, text: string): (r: seq<Task>)
    ensures |r| == |tasks|
    ensures forall i :: 0 <= i < |r| ==> r[i] == tasks[i].(text := r[i].text)
    ensures forall i :: 0 <= i < |r| ==> r[i].text == if tasks[i].id == id then text else tasks[i].text
  {
    seq(|tasks|, i requires 0 <= i < |tasks| =>
      if tasks[i].id == id then tasks[i].(text := text) else tasks[i])
  }

  /** The priority setter of the task list (app/tasks.tsx:1988-1994); `None` clears the priority. */
  function SetPriority(tasks: seq<Task>, id: string, priority: Option<Priority>): (r: seq<Task>)
    ensures |r| == |tasks|
    ensures forall i :: 0 <= i < |r| ==> r[i] == tasks[i].(priority := r[i].priority)
    ensures forall i :: 0 <= i < |r| ==> r[i].priority == if tasks[i].id == id then priority else tasks[i].priority
  {
    seq(|tasks|, i requires 0 <= i < |tasks| =>
      if tasks[i].id == id then tasks[i].(priority := priority) else tasks[i])
  }

  /** deleteTask (app/tasks.tsx:1645-1649). */
  function DeleteTask(tasks: seq<Task>, id: string): (r: seq<Task>)
    ensures forall t :: t in r <==> t in tasks && t.id != id
    ensures forall t :: multiset(r)[t] == if t.id != id then multiset(tasks)[t] else 0
    ensures IsSubsequence(r, tasks)
  {
    var keep := (t: Task) => t.id != id;
    FilterMembers(tasks, keep);
    FilterCount(tasks, keep);
    FilterSubsequence(tasks, keep);
    Filter(tasks, keep)
  }

  /** The tasks listed under a category (app/tasks.tsx:1842-1844, 1524-1526). */
  function InCategory(tasks: seq<Task>, category: string): (r: seq<Task>)
    ensures forall t :: t in r <==> t in tasks && t.category == category
    ensures forall t :: multiset(r)[t] == if t.category == category then multiset(tasks)[t] else 0
    ensures IsSubsequence(r, tasks)
  {
    var keep := (t: Task) => t.category == category;
    FilterMembers(tasks, keep);
    FilterCount(tasks, keep);
    FilterSubsequence(tasks, keep);
    Filter(tasks, keep)
  }

  /**
    The task half of renaming (app/tasks.tsx:1662-1664) and of deleting
    (app/tasks.tsx:1685-1689) a category: tasks in `from` move to `to`.
   */
  function MoveTasks(tasks: seq<Task>, from: string, to: string): (r: seq<Task>)
    ensures |r| == |tasks|
    ensures forall i :: 0 <= i < |r| ==> r[i] == tasks[i].(category := r[i].category)
    ensures forall i :: 0 <= i < |r| ==> r[i].category == if tasks[i].category == from then to else tasks[i].category
  {
    seq(|tasks|, i requires 0 <= i < |tasks| =>
      if tasks[i].category == from then tasks[i].(category := to) else tasks[i])
  }

  /** Toggling the same id twice restores the list. */
  lemma ToggleTwice(tasks: seq<Task>, id: string)
    ensures ToggleTask(ToggleTask(tasks, id), id) == tasks
  {
  }

  /** Of two edits of the same task's text, the later one wins. */
  lemma UpdateTaskLastWins(tasks: seq<Task>, id: string, first: string, second: string)
    ensures UpdateTask(UpdateTask(tasks, id, first), id, second) == UpdateTask(tasks, id, second)
  {
  }

  /** Of two priority choices for the same task, the later one wins. */
  lemma SetPriorityLastWins(tasks: seq<Task>, id: string, first: Option<Priority>, second: Option<Priority>)
    ensures SetPriority(SetPriority(tasks, id, first), id, second) == SetPriority(tasks, id, second)
  {
  }

  /** Deleting removes every task with the id and nothing else: the kept and the removed tasks add up to the list. */
  lemma {:induction false} DeleteTaskCount(tasks: seq<Task>, id: string)
    ensures |DeleteTask(tasks, id)| + |Filter(tasks, (t: Task) => t.id == id)| == |tasks|
  {
    if tasks != [] {
      DeleteTaskCount(tasks[1..], id);
    }
  }

  /** Deleting a task just added under a fresh id restores the list. */
  lemma DeleteAddedTask(tasks: seq<Task>, input: string, id: string, createdAt: string, category: string)
    requires forall t :: t in tasks ==> t.id != id
    ensures DeleteTask(AddTask(tasks, input, id, createdAt, category), id) == tasks
  {
    var keep := (t: Task) => t.id != id;
    FilterKeepsAll(tasks, keep);
    if !IsBlank(input) {
      var added := Task(id, input, false, createdAt, category, None);
      assert AddTask(tasks, input, id, createdAt, category) == tasks + [added];
      FilterConcat(tasks, [added], keep);
    }
  }

  /**
    After moving `from` to `to`, no task is left in `from` and `to` holds the
    tasks of both; the number of tasks does not change.
   */
  lemma {:induction false} MoveTasksCounts(tasks: seq<Task>, from: string, to: string)
    requires from != to
    ensures InCategory(MoveTasks(tasks, from, to), from) == []
    ensures |InCategory(MoveTasks(tasks, from, to), to)| == |InCategory(tasks, to)| + |InCategory(tasks, from)|
  {
    var moved := MoveTasks(tasks, from, to);
    if InCategory(moved, from) != [] {
      var t := InCategory(moved, from)[0];
      assert t in InCategory(moved, from);
    }
    if tasks != [] {
      assert moved[1..] == MoveTasks(tasks[1..], from, to);
      MoveTasksCounts(tasks[1..], from, to);
    }
  }

  /** Moving the tasks back undoes a move into a category that held no task. */
  lemma MoveTasksBack(tasks: seq<Task>, from: string, to: string)
    requires forall t :: t in tasks ==> t.category != to
    ensures MoveTasks(MoveTasks(tasks, from, to), to, from) == tasks
  {
    var back := MoveTasks(MoveTasks(tasks, from, to), to, from);
    forall i | 0 <= i < |tasks| ensures back[i] == tasks[i] {
      assert tasks[i] in tasks;
    }
  }
}
