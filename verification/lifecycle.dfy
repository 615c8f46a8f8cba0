/**
 * The edit session of one task: the guard and timer prologue of `editTask`,
 * and `saveTask`, which stops this task's timer and then overwrites the edited fields.
 */
module Lifecycle {
  import opened Wrappers
  import opened Text
  import opened Tasks
  import opened Tags
  import opened Duration
  import opened Stopwatch

  /**
   * `editTask(id)` up to the construction of the edit form, as written: nothing happens
   * for an unknown id; otherwise a timer running for ANOTHER task is cancelled without
   * committing its elapsed time. The already-editing guard never fires: it looks for the
   * button by its `edit-btn` class, which opening the form replaces by `save-btn`, so on a
   * row in edit mode the button is not found. That is also the case when the Save click
   * runs `editTask` again, through the Edit listener that is never removed.
   */
  function EditEntered(st: State, id: TaskId): (r: State)
    ensures r.tasks == st.tasks
    ensures CancelsOtherTimer(st, id) ==> r.watch == Idle
    ensures !CancelsOtherTimer(st, id) ==> r == st
  {
    if FindIndex(st.tasks, id).None? then st
    else if st.watch.running && st.watch.activeId != Some(id) then State(st.tasks, Idle)
    else st
  }

  /** The task exists and a timer runs for another task. */
  predicate CancelsOtherTimer(st: State, id: TaskId) {
    && FindIndex(st.tasks, id).Some?
    && st.watch.running && st.watch.activeId != Some(id)
  }

  /**
   * The guarded `editTask` its comments describe: a task whose form is already open
   * is left alone, so the Save click's `editTask` never touches the timer.
   */
  function EditEnteredAsIntended(st: State, id: TaskId, alreadyEditing: bool): (r: State)
    ensures r.tasks == st.tasks
    ensures alreadyEditing ==> r == st
    ensures !alreadyEditing && CancelsOtherTimer(st, id) ==> r.watch == Idle
    ensures !(!alreadyEditing && CancelsOtherTimer(st, id)) ==> r == st
  {
    if alreadyEditing then st else EditEntered(st, id)
  }

  /** The fields `saveTask` writes into a task; `id`, `completed` and `comments` are kept. */
  function Edited(t: Task, newText: string, newStatus: Status, newTags: string, seconds: nat, newAttachment: string): (r: Task)
    ensures r.id == t.id && r.completed == t.completed && r.comments == t.comments
    ensures r.text == Trim(newText) && r.attachment == Trim(newAttachment)
    ensures Normalized(r.tags)
  {
    t.(text := Trim(newText), status := newStatus, tags := ParseTags(newTags),
       duration := seconds, attachment := Trim(newAttachment))
  }

  /**
   * `saveTask`: for an unknown id nothing changes. Otherwise a timer running for this
   * task is stopped, and text, status, tags, duration and attachment are overwritten.
   * The duration comes from the decoded string, so the elapsed time the stop commits
   * is replaced: the net effect on the task list is the edit of the task as it was.
   */
  function Saved(st: State, id: TaskId, newText: string, newStatus: Status, newTags: string,
                 newDuration: string, newAttachment: string, now: int): (r: State)
    requires DecodeDuration(newDuration).Some?
    ensures FindIndex(st.tasks, id).None? ==> r == st
    ensures FindIndex(st.tasks, id).Some? ==>
      var i := FindIndex(st.tasks, id).value;
      && |r.tasks| == |st.tasks|
      && r.tasks[i].id == st.tasks[i].id
      && r.tasks[i].completed == st.tasks[i].completed
      && r.tasks[i].comments == st.tasks[i].comments
      && r.tasks[i].text == Trim(newText)
      && r.tasks[i].status == newStatus
      && r.tasks[i].tags == ParseTags(newTags)
      && r.tasks[i].duration == DecodeDuration(newDuration).value
      && r.tasks[i].attachment == Trim(newAttachment)
      && (forall j | 0 <= j < |st.tasks| && j != i :: r.tasks[j] == st.tasks[j])
    ensures FindIndex(st.tasks, id).Some? && st.watch.running && st.watch.activeId == Some(id) ==>
      !r.watch.running && r.watch.activeId == None
    ensures FindIndex(st.tasks, id).Some? && st.watch.running && st.watch.activeId == Some(id) ==>
      r.watch == Stopped(st, id, now).watch
    ensures !(st.watch.running && st.watch.activeId == Some(id)) ==> r.watch == st.watch
  {
    match FindIndex(st.tasks, id)
    case None => st
    case Some(i) =>
      var watch := if st.watch.activeId == Some(id) && st.watch.running then Stopped(st, id, now).watch else st.watch;
      var totalSeconds := DecodeDuration(newDuration).value;
      State(st.tasks[i := Edited(st.tasks[i], newText, newStatus, newTags, totalSeconds, newAttachment)], watch)
  }

  /**
   * The order the handler works in: stopping this task's timer first (which adds the
   * elapsed seconds) and then writing the form into the task gives the same state as
   * `Saved`, because the decoded duration replaces whatever the stop committed.
   */
  lemma SaveAfterStop(st: State, id: TaskId, newText: string, newStatus: Status, newTags: string,
                      newDuration: string, newAttachment: string, now: int)
    requires DecodeDuration(newDuration).Some?
    requires FindIndex(st.tasks, id).Some?
    requires st.watch.running && st.watch.activeId == Some(id)
    ensures var i := FindIndex(st.tasks, id).value;
      var stopped := Stopped(st, id, now);
      var totalSeconds := DecodeDuration(newDuration).value;
      && FindIndex(stopped.tasks, id) == Some(i)
      && State(stopped.tasks[i := Edited(stopped.tasks[i], newText, newStatus, newTags, totalSeconds, newAttachment)],
               stopped.watch)
         == Saved(st, id, newText, newStatus, newTags, newDuration, newAttachment, now)
  {
    var i := FindIndex(st.tasks, id).value;
    var stopped := Stopped(st, id, now);
    var totalSeconds := DecodeDuration(newDuration).value;
    var edited := Edited(st.tasks[i], newText, newStatus, newTags, totalSeconds, newAttachment);
    assert Saved(st, id, newText, newStatus, newTags, newDuration, newAttachment, now) == State(st.tasks[i := edited], stopped.watch);
    if Truthy(st.watch.start) {
      StopCommitsAt(st, id, now);
      assert Edited(stopped.tasks[i], newText, newStatus, newTags, totalSeconds, newAttachment) == edited;
      assert stopped.tasks[i := edited] == st.tasks[i := edited];
    }
  }

  /** A task as `saveTask` leaves it: trimmed text and attachment, normalized tags, a non-negative duration. */
  predicate SavedForm(t: Task) {
    Trim(t.text) == t.text && Trim(t.attachment) == t.attachment && Normalized(t.tags) && t.duration >= 0
  }

  /**
   * Saving the form `editTask` fills in (text, status, `tags.join(', ')`, `formatTime(duration)`,
   * attachment) without touching it gives back the same task list, when no timer runs for it.
   */
  lemma SaveUnchangedForm(st: State, id: TaskId, now: int)
    requires FindIndex(st.tasks, id).Some?
    requires SavedForm(st.tasks[FindIndex(st.tasks, id).value])
    requires !(st.watch.running && st.watch.activeId == Some(id))
    ensures var t := st.tasks[FindIndex(st.tasks, id).value];
      DecodeDuration(FormatTime(t.duration)).Some? &&
      Saved(st, id, t.text, t.status, Join(t.tags, ", "), FormatTime(t.duration), t.attachment, now) == st
  {
    var i := FindIndex(st.tasks, id).value;
    var t := st.tasks[i];
    DecodeFormatTime(t.duration);
    EditedUnchanged(t);
    var r := Saved(st, id, t.text, t.status, Join(t.tags, ", "), FormatTime(t.duration), t.attachment, now);
    assert r.tasks == st.tasks[i := t];
    UpdateSelf(st.tasks, i);
    assert r.watch == st.watch;
  }

  lemma UpdateSelf(s: seq<Task>, i: nat)
    requires i < |s|
    ensures s[i := s[i]] == s
  {
  }

  /** Writing a task's own saved-form fields back leaves it unchanged. */
  lemma EditedUnchanged(t: Task)
    requires SavedForm(t)
    ensures Edited(t, t.text, t.status, Join(t.tags, ", "), t.duration, t.attachment) == t
  {
    ParseJoinedTags(t.tags);
  }

  /** While this task's timer runs, the saved duration is the decoded text, not the stored duration plus elapsed time. */
  lemma SaveWhileRunningUsesText(st: State, id: TaskId, shown: nat, now: int)
    requires FindIndex(st.tasks, id).Some?
    requires st.watch.running && st.watch.activeId == Some(id)
    ensures var i := FindIndex(st.tasks, id).value;
      DecodeDuration(FormatTime(shown)).Some? &&
      var r := Saved(st, id, st.tasks[i].text, st.tasks[i].status, "", FormatTime(shown), "", now);
      r.tasks[i].duration == shown && !r.watch.running && r.watch.activeId == None
  {
    DecodeFormatTime(shown);
  }

  /**
   * A Save click on task `a` runs `editTask(a)` and then `saveTask(a, ...)`. As written,
   * when task `b`'s timer runs, the click cancels it: `b` keeps its old duration, no
   * timer runs, and a later stop for `b` has nothing to commit.
   */
  lemma SaveClickDropsOtherTime(st: State, a: TaskId, b: TaskId, newText: string, newStatus: Status,
                                newTags: string, newDuration: string, newAttachment: string, now: int, later: int)
    requires DecodeDuration(newDuration).Some?
    requires FindIndex(st.tasks, a).Some? && FindIndex(st.tasks, b).Some? && a != b
    requires st.watch.running && st.watch.activeId == Some(b)
    ensures var clicked := Saved(EditEntered(st, a), a, newText, newStatus, newTags, newDuration, newAttachment, now);
      var j := FindIndex(st.tasks, b).value;
      && clicked.watch == Idle
      && |clicked.tasks| == |st.tasks| && clicked.tasks[j] == st.tasks[j]
      && Stopped(clicked, b, later) == clicked
  {
    var entered := EditEntered(st, a);
    assert CancelsOtherTimer(st, a);
    assert entered == State(st.tasks, Idle);
    var i := FindIndex(st.tasks, a).value;
    var j := FindIndex(st.tasks, b).value;
    assert i != j;
  }

  /**
   * With the guard working, the Save click's `editTask` leaves the state alone: whatever
   * timer runs for another task keeps running, and every other task is untouched.
   */
  lemma SaveClickAsIntendedKeepsTimer(st: State, a: TaskId, newText: string, newStatus: Status,
                                      newTags: string, newDuration: string, newAttachment: string, now: int)
    requires DecodeDuration(newDuration).Some?
    requires !(st.watch.running && st.watch.activeId == Some(a))
    ensures var r := Saved(EditEnteredAsIntended(st, a, true), a, newText, newStatus, newTags, newDuration, newAttachment, now);
      && r.watch == st.watch
      && |r.tasks| == |st.tasks|
      && (forall j | 0 <= j < |st.tasks| && st.tasks[j].id != a :: r.tasks[j] == st.tasks[j])
  {
  }
}
