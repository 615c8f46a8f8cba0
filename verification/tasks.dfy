/**
 * Task records and the pure transitions of the global `tasks` array:
 * look-up by id (`findIndex`, first match), `addTask`, `toggleComplete`,
 * `deleteTask` and `addComment`.
 */
module Tasks {
  import opened Wrappers
  import opened Text

  /** `Date.now().toString()` at creation; nothing makes ids unique, so look-ups take the first match. */
  type TaskId = string

  /** The three options of the status selector: 'To Do', 'In Progress', 'Done'. */
  datatype Status = ToDo | InProgress | Done

  datatype Comment = Comment(text: string, timestamp: string)

  /** A task; `duration` is whole seconds (an integer, since a clock that went back can subtract). */
  datatype Task = Task(
    id: TaskId,
    text: string,
    completed: bool,
    status: Status,
    tags: seq<string>,
    duration: int,
    attachment: string,
    comments: seq<Comment>)

  /** The position of the first task with this id (`findIndex`), None where the source gets -1. */
  function FindIndex(tasks: seq<Task>, id: TaskId): (r: Option<nat>)
    ensures r.Some? ==> r.value < |tasks| && tasks[r.value].id == id
    ensures r.Some? ==> forall j | 0 <= j < r.value :: tasks[j].id != id
    ensures r.None? <==> forall j | 0 <= j < |tasks| :: tasks[j].id != id
  {
    if tasks == [] then None
    else if tasks[0].id == id then Some(0)
    else
      match FindIndex(tasks[1..], id)
      case None => None
      case Some(i) => Some(i + 1)
  }

  /** Two task lists with the same ids position by position resolve every id alike. */
  lemma FindIndexSameIds(a: seq<Task>, b: seq<Task>, id: TaskId)
    requires |a| == |b|
    requires forall j | 0 <= j < |a| :: a[j].id == b[j].id
    ensures FindIndex(a, id) == FindIndex(b, id)
  {
  }

  /** `addTask`: a blank input changes nothing; otherwise one fresh task is appended. */
  function WithNewTask(tasks: seq<Task>, input: string, newId: TaskId): (r: seq<Task>)
    ensures Blank(input) ==> r == tasks
    ensures !Blank(input) ==>
      && |r| == |tasks| + 1 && r[..|tasks|] == tasks
      && r[|tasks|].id == newId
      && r[|tasks|].text == Trim(input) && r[|tasks|].text != []
      && !r[|tasks|].completed && r[|tasks|].status == ToDo
      && r[|tasks|].tags == [] && r[|tasks|].duration == 0
      && r[|tasks|].attachment == [] && r[|tasks|].comments == []
  {
    var taskText := Trim(input);
    if taskText == [] then tasks
    else tasks + [Task(newId, taskText, false, ToDo, [], 0, "", [])]
  }

  /** `toggleComplete`: the first task with the id has `completed` negated; nothing else changes. */
  function WithToggled(tasks: seq<Task>, id: TaskId): (r: seq<Task>)
    ensures |r| == |tasks|
    ensures FindIndex(tasks, id).None? ==> r == tasks
    ensures FindIndex(tasks, id).Some? ==>
      var i := FindIndex(tasks, id).value;
      && r[i].completed == !tasks[i].completed
      && r[i].(completed := tasks[i].completed) == tasks[i]
      && forall j | 0 <= j < |tasks| && j != i :: r[j] == tasks[j]
  {
    match FindIndex(tasks, id)
    case None => tasks
    case Some(i) => tasks[i := tasks[i].(completed := !tasks[i].completed)]
  }

  /** Toggling twice restores the list. */
  lemma ToggleTwice(tasks: seq<Task>, id: TaskId)
    ensures WithToggled(WithToggled(tasks, id), id) == tasks
  {
    var once := WithToggled(tasks, id);
    FindIndexSameIds(tasks, once, id);
  }

  /** `deleteTask`: every task with this id removed, the others kept in order. */
  function WithoutId(tasks: seq<Task>, id: TaskId): (r: seq<Task>)
    ensures forall j | 0 <= j < |r| :: r[j].id != id
    ensures forall t :: multiset(r)[t] == if t.id == id then 0 else multiset(tasks)[t]
  {
    if tasks == [] then []
    else
      assert tasks == [tasks[0]] + tasks[1..];
      (if tasks[0].id == id then [] else [tasks[0]]) + WithoutId(tasks[1..], id)
  }

  /** `r` is `s` with some elements left out, the rest in their original order. */
  ghost predicate IsSubsequence<T>(r: seq<T>, s: seq<T>)
    decreases |s|
  {
    r == [] || (s != [] && ((r[0] == s[0] && IsSubsequence(r[1..], s[1..])) || IsSubsequence(r, s[1..])))
  }

  /** Deleting keeps the other tasks in their order. */
  lemma {:induction false} WithoutIdIsSubsequence(tasks: seq<Task>, id: TaskId)
    ensures IsSubsequence(WithoutId(tasks, id), tasks)
  {
    if tasks != [] {
      WithoutIdIsSubsequence(tasks[1..], id);
      var r := WithoutId(tasks, id);
      if tasks[0].id != id {
        assert r[0] == tasks[0] && r[1..] == WithoutId(tasks[1..], id);
      } else {
        assert r == WithoutId(tasks[1..], id);
      }
    }
  }

  /** Deleting an id that no task carries changes nothing. */
  lemma {:induction false} WithoutAbsentId(tasks: seq<Task>, id: TaskId)
    requires FindIndex(tasks, id).None?
    ensures WithoutId(tasks, id) == tasks
  {
    if tasks != [] {
      WithoutAbsentId(tasks[1..], id);
      assert tasks == [tasks[0]] + tasks[1..];
    }
  }

  /** `addComment`: for a known id and non-blank text, one trimmed, timestamped comment is appended to that task only. */
  function WithComment(tasks: seq<Task>, id: TaskId, commentText: string, timestamp: string): (r: seq<Task>)
    ensures |r| == |tasks|
    ensures FindIndex(tasks, id).None? || Blank(commentText) ==> r == tasks
    ensures FindIndex(tasks, id).Some? && !Blank(commentText) ==>
      var i := FindIndex(tasks, id).value;
      && r[i].comments == tasks[i].comments + [Comment(Trim(commentText), timestamp)]
      && r[i].(comments := tasks[i].comments) == tasks[i]
      && forall j | 0 <= j < |tasks| && j != i :: r[j] == tasks[j]
  {
    match FindIndex(tasks, id)
    case Some(i) =>
      if Trim(commentText) != [] then
        tasks[i := tasks[i].(comments := tasks[i].comments + [Comment(Trim(commentText), timestamp)])]
      else tasks
    case None => tasks
  }
}
