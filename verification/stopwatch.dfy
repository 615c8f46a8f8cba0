/**
 * The stopwatch: the three module globals `activeTimer` (here only whether an
 * interval is running), `activeTimerTaskId` and `timerStartTime`, and the
 * `startTimer` / `stopTimer` transitions over them and the task list.
 * Wall-clock readings (`Date.now()`, milliseconds) are parameters.
 */
module Stopwatch {
  import opened Wrappers
  import opened Tasks

  datatype Watch = Watch(running: bool, activeId: Option<TaskId>, start: Option<int>)

  /** All three globals null. */
  const Idle := Watch(false, None, None)

  /** The timer globals together with the task list they act on. */
  datatype State = State(tasks: seq<Task>, watch: Watch)

  /**
   * A running interval always has its task id and start time recorded. The converse fails:
   * `stopTimer` for a deleted task keeps the start time, and `StartedWhileRunning` leaves an
   * id and a start time with no interval.
   */
  predicate Consistent(w: Watch) {
    w.running ==> w.activeId.Some? && w.start.Some?
  }

  /** JavaScript truthiness of `timerStartTime`: neither null nor 0. */
  predicate Truthy(start: Option<int>) {
    start.Some? && start.value != 0
  }

  /** `Math.floor((now - start) / 1000)`: whole seconds between two millisecond readings. */
  function Elapsed(start: int, now: int): (secs: int)
    ensures secs * 1000 <= now - start < secs * 1000 + 1000
    ensures now >= start ==> secs >= 0
  {
    (now - start) / 1000
  }

  /**
   * `stopTimer(id)`: a no-op unless the running timer is this id's. Otherwise the
   * interval stops and the id is cleared; if the task still exists (and the start
   * time is truthy) its elapsed seconds are added to its duration and the start
   * time is cleared, else the start time is left as it was.
   */
  function Stopped(st: State, id: TaskId, now: int): (r: State)
    ensures |r.tasks| == |st.tasks|
    ensures !(st.watch.running && st.watch.activeId == Some(id)) ==> r == st
    ensures st.watch.running && st.watch.activeId == Some(id) ==>
      !r.watch.running && r.watch.activeId == None
    ensures st.watch.running && st.watch.activeId == Some(id)
            && FindIndex(st.tasks, id).Some? && Truthy(st.watch.start) ==>
      var i := FindIndex(st.tasks, id).value;
      && r.watch.start == None
      && r.tasks[i].duration == st.tasks[i].duration + Elapsed(st.watch.start.value, now)
      && r.tasks[i].(duration := st.tasks[i].duration) == st.tasks[i]
      && forall j | 0 <= j < |st.tasks| && j != i :: r.tasks[j] == st.tasks[j]
    ensures st.watch.running && st.watch.activeId == Some(id)
            && !(FindIndex(st.tasks, id).Some? && Truthy(st.watch.start)) ==>
      r.tasks == st.tasks && r.watch.start == st.watch.start
  {
    if st.watch.running && st.watch.activeId == Some(id) then
      var taskIndex := FindIndex(st.tasks, id);
      if taskIndex.Some? && Truthy(st.watch.start) then
        var i := taskIndex.value;
        var t := st.tasks[i];
        State(st.tasks[i := t.(duration := t.duration + Elapsed(st.watch.start.value, now))], Idle)
      else
        State(st.tasks, Watch(false, None, st.watch.start))
    else st
  }

  /** A committing stop changes only this task's duration, so the task is still found where it was. */
  lemma StopCommitsAt(st: State, id: TaskId, now: int)
    requires st.watch.running && st.watch.activeId == Some(id)
    requires FindIndex(st.tasks, id).Some? && Truthy(st.watch.start)
    ensures var i := FindIndex(st.tasks, id).value;
      var t := st.tasks[i];
      && Stopped(st, id, now).tasks == st.tasks[i := t.(duration := t.duration + Elapsed(st.watch.start.value, now))]
      && FindIndex(Stopped(st, id, now).tasks, id) == Some(i)
  {
    FindIndexSameIds(Stopped(st, id, now).tasks, st.tasks, id);
  }

  /**
   * `startTimer(id)` as written. A running timer is cancelled WITHOUT committing its elapsed
   * time, and the page is re-rendered. For an unknown id nothing more happens. Otherwise the id
   * and the start time are recorded. Then the row's start button is looked up: the form that
   * holds it exists only while no re-render has happened, so after a cancellation the look-up
   * yields null and the handler throws before the interval is created.
   */
  function Started(st: State, id: TaskId, now: int): (r: State)
    ensures r.tasks == st.tasks
    ensures FindIndex(st.tasks, id).Some? ==> r.watch.activeId == Some(id) && r.watch.start == Some(now)
    ensures FindIndex(st.tasks, id).Some? ==> (r.watch.running <==> !st.watch.running)
    ensures FindIndex(st.tasks, id).None? ==> !r.watch.running
    ensures FindIndex(st.tasks, id).None? ==> r.watch == if st.watch.running then Idle else st.watch
  {
    var rerendered := st.watch.running;
    var cleared := if st.watch.running then Idle else st.watch;
    if FindIndex(st.tasks, id).None? then State(st.tasks, cleared)
    else State(st.tasks, Watch(!rerendered, Some(id), Some(now)))
  }

  /**
   * `startTimer(id)` as its comments describe it: the running timer is cancelled and the
   * interval for `id` starts from `now`.
   */
  function StartedAsIntended(st: State, id: TaskId, now: int): (r: State)
    ensures r.tasks == st.tasks
    ensures FindIndex(st.tasks, id).Some? ==> r.watch == Watch(true, Some(id), Some(now))
    ensures FindIndex(st.tasks, id).None? ==> r.watch == if st.watch.running then Idle else st.watch
  {
    var cleared := if st.watch.running then Idle else st.watch;
    if FindIndex(st.tasks, id).None? then State(st.tasks, cleared)
    else State(st.tasks, Watch(true, Some(id), Some(now)))
  }

  /**
   * Starting a timer while another one runs leaves no interval: the id and start time are
   * recorded, but `stopTimer` for that id, at any later time, then changes nothing, so the time
   * is never counted. Only a fresh start (with no interval running) starts it.
   */
  lemma StartedWhileRunning(st: State, id: TaskId, now: int, later: int)
    requires st.watch.running && FindIndex(st.tasks, id).Some?
    ensures var r := Started(st, id, now);
      && r.watch == Watch(false, Some(id), Some(now))
      && Stopped(r, id, later) == r
      && Started(r, id, later).watch == Watch(true, Some(id), Some(later))
      && StartedAsIntended(st, id, now).watch.running
  {
  }

  /** The corrected start keeps a stricter invariant: an interval runs exactly when an id is recorded. */
  lemma StartedAsIntendedKeepsIdle(st: State, id: TaskId, now: int)
    requires Consistent(st.watch) && (st.watch.running <==> st.watch.activeId.Some?)
    ensures var w := StartedAsIntended(st, id, now).watch;
      Consistent(w) && (w.running <==> w.activeId.Some?)
  {
  }

  /** Every transition keeps the globals consistent. */
  lemma StopKeepsConsistent(st: State, id: TaskId, now: int)
    requires Consistent(st.watch)
    ensures Consistent(Stopped(st, id, now).watch)
  {
  }

  lemma StartKeepsConsistent(st: State, id: TaskId, now: int)
    requires Consistent(st.watch)
    ensures Consistent(Started(st, id, now).watch)
  {
  }

  /** A second `stopTimer` is a no-op, for the same or any other id, at any later time. */
  lemma StopTwice(st: State, id: TaskId, other: TaskId, now: int, later: int)
    ensures var once := Stopped(st, id, now);
      st.watch.running && st.watch.activeId == Some(id) ==> Stopped(once, other, later) == once
  {
  }

  /** With a clock that has not gone back, stopping never decreases any duration. */
  lemma StopNeverLosesTime(st: State, id: TaskId, now: int)
    requires st.watch.start.Some? ==> now >= st.watch.start.value
    ensures forall j | 0 <= j < |st.tasks| :: Stopped(st, id, now).tasks[j].duration >= st.tasks[j].duration
  {
  }

  /**
   * Starting a timer on another task while one runs drops the running one's elapsed time:
   * the task list is unchanged, whereas stopping first would have added the elapsed seconds.
   */
  lemma StartDropsRunningTime(st: State, running: TaskId, id: TaskId, now: int)
    requires st.watch == Watch(true, Some(running), st.watch.start) && Truthy(st.watch.start)
    requires FindIndex(st.tasks, running).Some?
    ensures var i := FindIndex(st.tasks, running).value;
      && Started(st, id, now).tasks[i].duration == st.tasks[i].duration
      && Stopped(st, running, now).tasks[i].duration == st.tasks[i].duration + Elapsed(st.watch.start.value, now)
  {
  }

  /** After the timer's task has been deleted, `stopTimer` clears the id but leaves the start time set. */
  lemma StopAfterDelete(st: State, id: TaskId, now: int)
    requires st.watch.running && st.watch.activeId == Some(id) && st.watch.start.Some?
    ensures var after := Stopped(State(WithoutId(st.tasks, id), st.watch), id, now);
      && after.watch == Watch(false, None, st.watch.start)
      && after.tasks == WithoutId(st.tasks, id)
  {
    var rest := WithoutId(st.tasks, id);
    assert FindIndex(rest, id).None?;
  }
}
