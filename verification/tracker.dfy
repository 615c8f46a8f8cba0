/**
 * The page's mutable state: the global `tasks` array and the three timer globals,
 * updated in place by the event handlers. Each method follows its handler step by
 * step and is specified by the pure transition of the same operation.
 */
module Tracker {
  import opened Wrappers
  import opened Text
  import opened Tasks
  import opened Tags
  import opened Duration
  import opened Stopwatch
  import opened Lifecycle

  class TaskTracker {
    var tasks: seq<Task>
    /** Whether `activeTimer` holds an interval, i.e. a stopwatch is ticking. */
    var timerRunning: bool
    var activeTimerTaskId: Option<TaskId>
    var timerStartTime: Option<int>

    /**
     * The timer invariant `Stopwatch.Consistent` over the fields: a ticking interval has
     * an id and a start time. Every method keeps it; none needs it, since the pure
     * transitions the methods are proved against are defined on every state.
     */
    ghost predicate Valid()
      reads this
    {
      Consistent(Watch(timerRunning, activeTimerTaskId, timerStartTime))
    }

    function Snapshot(): State
      reads this
    {
      State(tasks, Watch(timerRunning, activeTimerTaskId, timerStartTime))
    }

    /** Page load: the tasks read back from storage, no timer. */
    constructor (saved: seq<Task>)
      ensures Valid() && Snapshot() == State(saved, Idle)
    {
      tasks := saved;
      timerRunning := false;
      activeTimerTaskId := None;
      timerStartTime := None;
    }

    /** `addTask`, with the input box's text and the fresh id passed in. */
    method AddTask(input: string, newId: TaskId)
      requires Valid()
      modifies this
      ensures Valid()
      ensures tasks == WithNewTask(old(tasks), input, newId)
      ensures Snapshot().watch == old(Snapshot().watch)
    {
      var taskText := Trim(input);
      if taskText == [] {
        return;
      }
      tasks := tasks + [Task(newId, taskText, false, ToDo, [], 0, "", [])];
    }

    /** `toggleComplete`. */
    method ToggleComplete(id: TaskId)
      requires Valid()
      modifies this
      ensures Valid()
      ensures tasks == WithToggled(old(tasks), id)
      ensures Snapshot().watch == old(Snapshot().watch)
    {
      var taskIndex := FindIndex(tasks, id);
      if taskIndex.Some? {
        var i := taskIndex.value;
        tasks := tasks[i := tasks[i].(completed := !tasks[i].completed)];
      }
    }

    /** `deleteTask`: the timer globals are not touched, even when they name this id. */
    method DeleteTask(id: TaskId)
      requires Valid()
      modifies this
      ensures Valid()
      ensures tasks == WithoutId(old(tasks), id)
      ensures Snapshot().watch == old(Snapshot().watch)
    {
      tasks := WithoutId(tasks, id);
    }

    /** `addComment`, with the timestamp passed in. */
    method AddComment(id: TaskId, commentText: string, timestamp: string)
      requires Valid()
      modifies this
      ensures Valid()
      ensures tasks == WithComment(old(tasks), id, commentText, timestamp)
      ensures Snapshot().watch == old(Snapshot().watch)
    {
      var taskIndex := FindIndex(tasks, id);
      if taskIndex.Some? && Trim(commentText) != [] {
        var i := taskIndex.value;
        tasks := tasks[i := tasks[i].(comments := tasks[i].comments + [Comment(Trim(commentText), timestamp)])];
      }
    }

    /**
     * `startTimer`, at wall-clock time `now`. The re-render after a cancellation removes the
     * row's timer buttons; the handler then fails at the button look-up, before `setInterval`.
     */
    method StartTimer(id: TaskId, now: int)
      requires Valid()
      modifies this
      ensures Valid()
      ensures Snapshot() == Started(old(Snapshot()), id, now)
    {
      var rerendered := false;
      if timerRunning {
        timerRunning := false;
        activeTimerTaskId := None;
        timerStartTime := None;
        rerendered := true;
      }
      var taskIndex := FindIndex(tasks, id);
      if taskIndex.None? {
        return;
      }
      activeTimerTaskId := Some(id);
      timerStartTime := Some(now);
      if rerendered {
        return;
      }
      timerRunning := true;
    }

    /** `stopTimer`, at wall-clock time `now`. */
    method StopTimer(id: TaskId, now: int)
      requires Valid()
      modifies this
      ensures Valid()
      ensures Snapshot() == Stopped(old(Snapshot()), id, now)
    {
      if timerRunning && activeTimerTaskId == Some(id) {
        timerRunning := false;
        activeTimerTaskId := None;
        var taskIndex := FindIndex(tasks, id);
        if taskIndex.Some? && Truthy(timerStartTime) {
          var i := taskIndex.value;
          var elapsed := Elapsed(timerStartTime.value, now);
          tasks := tasks[i := tasks[i].(duration := tasks[i].duration + elapsed)];
          timerStartTime := None;
        }
      }
    }

    /**
     * `editTask` up to building the form; `alreadyEditing` says the row's form is open,
     * which is the case exactly when the click is the Save button's. Returns whether the
     * handler completes with its form on the page: not on an open form, whose button the
     * handler cannot find and so fails when relabelling it, and not when another task's
     * timer was cancelled, since the re-render then detaches the row.
     */
    method EditTask(id: TaskId, alreadyEditing: bool) returns (editing: bool)
      requires Valid()
      modifies this
      ensures Valid()
      ensures editing <==> FindIndex(old(tasks), id).Some? && !alreadyEditing && !CancelsOtherTimer(old(Snapshot()), id)
      ensures Snapshot() == EditEntered(old(Snapshot()), id)
    {
      var taskIndex := FindIndex(tasks, id);
      if taskIndex.None? {
        return false;
      }
      // the button is looked up by `edit-btn`, which an open form has replaced by
      // `save-btn`: it is found only when no form is open, and then never reads Save,
      // so the already-editing guard does not return
      var editBtnFound := !alreadyEditing;
      editing := true;
      if timerRunning && activeTimerTaskId != Some(id) {
        timerRunning := false;
        activeTimerTaskId := None;
        timerStartTime := None;
        // the re-render replaces the row fetched earlier: the form is built on a detached row
        editing := false;
      }
      if !editBtnFound {
        // relabelling the missing button fails
        editing := false;
      }
    }

    /** `saveTask`, with the form's five values and the time of the click. */
    method SaveTask(id: TaskId, newText: string, newStatus: Status, newTagsString: string,
                    newDurationString: string, newAttachment: string, now: int)
      requires Valid()
      requires DecodeDuration(newDurationString).Some?
      modifies this
      ensures Valid()
      ensures Snapshot() == Saved(old(Snapshot()), id, newText, newStatus, newTagsString,
                                  newDurationString, newAttachment, now)
    {
      ghost var before := Snapshot();
      var taskIndex := FindIndex(tasks, id);
      if taskIndex.None? {
        return;
      }
      if activeTimerTaskId == Some(id) && timerRunning {
        StopTimer(id, now);
        SaveAfterStop(before, id, newText, newStatus, newTagsString, newDurationString, newAttachment, now);
      }
      var totalSeconds := DecodeDuration(newDurationString).value;
      var i := taskIndex.value;
      tasks := tasks[i := Edited(tasks[i], newText, newStatus, newTagsString, totalSeconds, newAttachment)];
    }
  }
}
