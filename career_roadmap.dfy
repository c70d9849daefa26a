/**
 * The progress tracker of the career roadmap view: the list of completed
 * knowledge areas, the checkbox toggle that updates it, and the percentage
 * shown in the "Progress Tracker" card.
 */
module CareerRoadmap {
  import opened Wrappers

  type Task = string

  /** No task occurs twice. */
  predicate Distinct(s: seq<Task>) {
    forall i, j :: 0 <= i < j < |s| ==> s[i] != s[j]
  }

  /** Every task of `s` is one of `areas`. */
  predicate AllIn(s: seq<Task>, areas: seq<Task>) {
    forall t :: t in s ==> t in areas
  }

  /** `prev.filter(t => t !== x)`: every element other than `x`, in order. */
  function Without(s: seq<Task>, x: Task): (r: seq<Task>)
    ensures x !in r
    ensures forall y :: y != x ==> (y in r <==> y in s)
    ensures |r| <= |s|
  {
    if s == [] then []
    else if s[0] == x then Without(s[1..], x)
    else [s[0]] + Without(s[1..], x)
  }

  /**
   * The state updater of `handleTaskToggle`: a task already in the list is
   * removed (every occurrence), any other task is appended at the end.
   */
  function Toggle(prev: seq<Task>, task: Task): (r: seq<Task>)
    ensures task in r <==> task !in prev
    ensures forall y :: y != task ==> (y in r <==> y in prev)
  {
    if task in prev then Without(prev, task) else prev + [task]
  }

  /**
   * `completed / total * 100`, or 0 when there are no knowledge areas; exact
   * rational arithmetic in place of floating point.
   */
  function Progress(completed: seq<Task>, areas: seq<Task>): (p: real)
    ensures |areas| == 0 ==> p == 0.0
    ensures |areas| > 0 ==> p * (|areas| as real) == (|completed| as real) * 100.0
    ensures 0.0 <= p
  {
    if |areas| > 0 then ((|completed| as real) / (|areas| as real)) * 100.0 else 0.0
  }

  /** The list after toggling each of `tasks` in turn, starting from `start`. */
  function ApplyToggles(start: seq<Task>, tasks: seq<Task>): seq<Task>
    decreases |tasks|
  {
    if tasks == [] then start else ApplyToggles(Toggle(start, tasks[0]), tasks[1..])
  }

  lemma {:induction false} WithoutAbsent(s: seq<Task>, x: Task)
    requires x !in s
    ensures Without(s, x) == s
  {
    if s != [] {
      WithoutAbsent(s[1..], x);
    }
  }

  lemma {:induction false} WithoutAppend(s: seq<Task>, t: seq<Task>, x: Task)
    ensures Without(s + t, x) == Without(s, x) + Without(t, x)
  {
    if s == [] {
      assert s + t == t;
    } else {
      assert (s + t)[1..] == s[1..] + t;
      WithoutAppend(s[1..], t, x);
    }
  }

  lemma {:induction false} WithoutIdempotent(s: seq<Task>, x: Task)
    ensures Without(Without(s, x), x) == Without(s, x)
  {
    WithoutAbsent(Without(s, x), x);
  }

  lemma {:induction false} WithoutKeepsDistinct(s: seq<Task>, x: Task)
    requires Distinct(s)
    ensures Distinct(Without(s, x))
  {
    if s != [] {
      WithoutKeepsDistinct(s[1..], x);
      if s[0] != x {
        assert s[0] !in s[1..];
        assert s[0] !in Without(s[1..], x);
      }
    }
  }

  lemma {:induction false} WithoutShrinks(s: seq<Task>, x: Task)
    requires x in s
    ensures |Without(s, x)| < |s|
  {
    if s[0] != x {
      WithoutShrinks(s[1..], x);
    }
  }

  /** Toggling a task that is not in the list and toggling it again gives back the list. */
  lemma ToggleTwiceRestores(prev: seq<Task>, task: Task)
    requires task !in prev
    ensures Toggle(Toggle(prev, task), task) == prev
  {
    WithoutAppend(prev, [task], task);
    WithoutAbsent(prev, task);
  }

  /**
   * Toggle never reorders or changes the other tasks: once the toggled task is
   * erased, the list before and after are the same.
   */
  lemma ToggleKeepsOthers(prev: seq<Task>, task: Task)
    ensures Without(Toggle(prev, task), task) == Without(prev, task)
    ensures task !in prev ==> Toggle(prev, task) == prev + [task]
  {
    if task in prev {
      WithoutIdempotent(prev, task);
    } else {
      WithoutAppend(prev, [task], task);
    }
  }

  /** A duplicate-free list stays duplicate-free under toggling. */
  lemma ToggleKeepsDistinct(prev: seq<Task>, task: Task)
    requires Distinct(prev)
    ensures Distinct(Toggle(prev, task))
  {
    if task in prev {
      WithoutKeepsDistinct(prev, task);
    }
  }

  /** A duplicate-free list drawn from `areas` is no longer than `areas`. */
  lemma {:induction false} DistinctWithinIsShorter(s: seq<Task>, areas: seq<Task>)
    requires Distinct(s) && AllIn(s, areas)
    ensures |s| <= |areas|
  {
    if s != [] {
      var rest := Without(areas, s[0]);
      WithoutShrinks(areas, s[0]);
      forall t | t in s[1..] ensures t in rest {
        assert t != s[0];
      }
      DistinctWithinIsShorter(s[1..], rest);
    }
  }

  /** Progress lies in [0, 100] and is 100 exactly when every area is completed. */
  lemma ProgressBounds(completed: seq<Task>, areas: seq<Task>)
    requires |completed| <= |areas|
    ensures 0.0 <= Progress(completed, areas) <= 100.0
    ensures |areas| > 0 ==> (Progress(completed, areas) == 100.0 <==> |completed| == |areas|)
  {
    if |areas| > 0 {
      var p, a, c := Progress(completed, areas), |areas| as real, |completed| as real;
      assert p * a == c * 100.0 <= a * 100.0;
      assert (p - 100.0) * a == (c - a) * 100.0;
    }
  }

  /**
   * Toggling only knowledge areas, starting from the empty list, keeps the
   * completed list duplicate-free and within the areas, so the progress stays
   * within [0, 100].
   */
  lemma {:induction false} TogglesFromEmpty(areas: seq<Task>, tasks: seq<Task>)
    requires forall t :: t in tasks ==> t in areas
    ensures Distinct(ApplyToggles([], tasks))
    ensures AllIn(ApplyToggles([], tasks), areas)
    ensures 0.0 <= Progress(ApplyToggles([], tasks), areas) <= 100.0
  {
    TogglesKeepInvariant([], areas, tasks);
    var done := ApplyToggles([], tasks);
    DistinctWithinIsShorter(done, areas);
    ProgressBounds(done, areas);
  }

  lemma {:induction false} TogglesKeepInvariant(start: seq<Task>, areas: seq<Task>, tasks: seq<Task>)
    requires Distinct(start) && AllIn(start, areas)
    requires forall t :: t in tasks ==> t in areas
    ensures Distinct(ApplyToggles(start, tasks)) && AllIn(ApplyToggles(start, tasks), areas)
    decreases |tasks|
  {
    if tasks != [] {
      ToggleKeepsDistinct(start, tasks[0]);
      TogglesKeepInvariant(Toggle(start, tasks[0]), areas, tasks[1..]);
    }
  }

  /** The state of one roadmap view: its knowledge areas and the completed ones. */
  class Tracker {
    const knowledgeAreas: seq<Task>
    var completedTasks: seq<Task>

    /** What the checkbox list maintains: completed tasks are distinct areas. */
    ghost predicate Valid()
      reads this
    {
      Distinct(completedTasks) && AllIn(completedTasks, knowledgeAreas)
    }

    /** A fresh view: `data.knowledgeAreas || []` and no completed task. */
    constructor (areas: Option<seq<Task>>)
      ensures Valid()
      ensures knowledgeAreas == areas.GetOr([]) && completedTasks == []
    {
      knowledgeAreas := areas.GetOr([]);
      completedTasks := [];
    }

    /** The checkbox handler. Toggling one of the areas keeps the view valid. */
    method HandleTaskToggle(task: Task)
      modifies this
      ensures completedTasks == Toggle(old(completedTasks), task)
      ensures old(Valid()) && task in knowledgeAreas ==> Valid()
    {
      if old(Valid()) {
        ToggleKeepsDistinct(completedTasks, task);
      }
      completedTasks := Toggle(completedTasks, task);
    }

    /** The progress shown by the view; within [0, 100] in every valid state. */
    function CurrentProgress(): (p: real)
      reads this
      requires Valid()
      ensures 0.0 <= p <= 100.0
      ensures p == Progress(completedTasks, knowledgeAreas)
    {
      DistinctWithinIsShorter(completedTasks, knowledgeAreas);
      ProgressBounds(completedTasks, knowledgeAreas);
      Progress(completedTasks, knowledgeAreas)
    }
  }
}
