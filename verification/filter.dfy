/**
 * The `tasks.filter(...)` predicate of `renderTasks`: a status match AND a tag match,
 * where the tag filter text is split, trimmed and emptied like a task's tag text and
 * a task matches when some term is, ignoring ASCII case, a substring of some tag.
 */
module Filter {
  import opened Text
  import opened Tasks
  import opened Tags

  /** The status selector: 'all' or one status. */
  datatype StatusFilter = All | Only(status: Status)

  predicate StatusMatch(f: StatusFilter, s: Status) {
    f.All? || f.status == s
  }

  /** Some filter term occurs, ignoring ASCII case, inside some tag. */
  predicate SomeTagContains(tags: seq<string>, terms: seq<string>) {
    exists i, j | 0 <= i < |terms| && 0 <= j < |tags| :: Includes(Lower(tags[j]), Lower(terms[i]))
  }

  predicate TagMatch(tags: seq<string>, terms: seq<string>) {
    |terms| == 0 || SomeTagContains(tags, terms)
  }

  predicate Keep(t: Task, f: StatusFilter, terms: seq<string>) {
    StatusMatch(f, t.status) && TagMatch(t.tags, terms)
  }

  /** The kept tasks: each task kept exactly as often as it occurs, the others never. */
  function FilterTasks(tasks: seq<Task>, f: StatusFilter, terms: seq<string>): (r: seq<Task>)
    ensures |r| <= |tasks|
    ensures forall j | 0 <= j < |r| :: Keep(r[j], f, terms)
    ensures forall t :: multiset(r)[t] == if Keep(t, f, terms) then multiset(tasks)[t] else 0
  {
    if tasks == [] then []
    else
      assert tasks == [tasks[0]] + tasks[1..];
      (if Keep(tasks[0], f, terms) then [tasks[0]] else []) + FilterTasks(tasks[1..], f, terms)
  }

  /** The tasks `renderTasks` shows for the current status filter and tag filter text. */
  function Visible(tasks: seq<Task>, f: StatusFilter, tagFilterText: string): (r: seq<Task>)
    ensures forall t :: t in r <==> t in tasks && Keep(t, f, ParseTags(tagFilterText))
  {
    var r := FilterTasks(tasks, f, ParseTags(tagFilterText));
    assert forall t :: t in r <==> multiset(r)[t] > 0;
    r
  }

  /** Filtering keeps the relative order of the tasks. */
  lemma {:induction false} FilterTasksIsSubsequence(tasks: seq<Task>, f: StatusFilter, terms: seq<string>)
    ensures IsSubsequence(FilterTasks(tasks, f, terms), tasks)
  {
    if tasks != [] {
      FilterTasksIsSubsequence(tasks[1..], f, terms);
      var r := FilterTasks(tasks, f, terms);
      if Keep(tasks[0], f, terms) {
        assert r[0] == tasks[0] && r[1..] == FilterTasks(tasks[1..], f, terms);
      } else {
        assert r == FilterTasks(tasks[1..], f, terms);
      }
    }
  }

  lemma VisibleIsSubsequence(tasks: seq<Task>, f: StatusFilter, tagFilterText: string)
    ensures IsSubsequence(Visible(tasks, f, tagFilterText), tasks)
  {
    FilterTasksIsSubsequence(tasks, f, ParseTags(tagFilterText));
  }

  /** With 'all' and no tag terms nothing is left out. */
  lemma {:induction false} FilterUnfiltered(tasks: seq<Task>)
    ensures FilterTasks(tasks, All, []) == tasks
  {
    if tasks != [] {
      FilterUnfiltered(tasks[1..]);
      assert Keep(tasks[0], All, []);
      assert tasks == [tasks[0]] + tasks[1..];
    }
  }

  /** With 'all' and no tag terms (a blank, or only commas and white space) every task is shown, in order. */
  lemma VisibleUnfiltered(tasks: seq<Task>, tagFilterText: string)
    requires ParseTags(tagFilterText) == []
    ensures Visible(tasks, All, tagFilterText) == tasks
  {
    FilterUnfiltered(tasks);
  }

  /** With no tag terms, a status filter keeps exactly the tasks of that status. */
  lemma FilterByStatus(tasks: seq<Task>, s: Status)
    ensures forall t :: multiset(FilterTasks(tasks, Only(s), []))[t]
                        == if t.status == s then multiset(tasks)[t] else 0
  {
    var r := FilterTasks(tasks, Only(s), []);
    forall t: Task ensures multiset(r)[t] == if t.status == s then multiset(tasks)[t] else 0 {
      assert Keep(t, Only(s), []) == (t.status == s);
    }
  }

  /** With no tag terms, a status filter shows exactly the tasks of that status, each as often as it occurs. */
  lemma VisibleByStatus(tasks: seq<Task>, s: Status, tagFilterText: string)
    requires ParseTags(tagFilterText) == []
    ensures forall t :: multiset(Visible(tasks, Only(s), tagFilterText))[t]
                        == if t.status == s then multiset(tasks)[t] else 0
  {
    FilterByStatus(tasks, s);
  }
}
