/** The read-only queries and list edits that both task managers share:
    selecting by category or priority, and what `toggle_completed` and
    `cleanup` do to the list. */
module Queries {
  import opened Wrappers
  import opened Records
  import opened Ordering

  /** `todo.get('category', 'Allgemein') == category` */
  predicate InCategory(t: Todo, category: string) {
    Is(t.category, General, category)
  }

  /** The condition of the category comprehensions, as a function value. */
  function InCategoryOf(category: string): Todo -> bool {
    t => InCategory(t, category)
  }

  /** `todo.get('priority', '►') == priority` */
  predicate HasPriority(t: Todo, priority: string) {
    Is(t.priority, Medium, priority)
  }

  /** The condition of the priority comprehension, as a function value. */
  function HasPriorityOf(priority: string): Todo -> bool {
    t => HasPriority(t, priority)
  }

  /** `get_by_category`: the tasks of one category, in list order. */
  function ByCategory(ts: seq<Todo>, category: string): (r: seq<Todo>)
    ensures forall i :: 0 <= i < |r| ==> r[i] in ts && InCategory(r[i], category)
    ensures forall i :: 0 <= i < |ts| ==> (ts[i] in r <==> InCategory(ts[i], category))
  {
    FilterMembers(ts, InCategoryOf(category));
    FilterWithin(ts, InCategoryOf(category));
    Filter(ts, InCategoryOf(category))
  }

  /** `get_by_priority`: the tasks of one priority, in list order. */
  function ByPriority(ts: seq<Todo>, priority: string): (r: seq<Todo>)
    ensures forall i :: 0 <= i < |r| ==> r[i] in ts && HasPriority(r[i], priority)
    ensures forall i :: 0 <= i < |ts| ==> (ts[i] in r <==> HasPriority(ts[i], priority))
  {
    FilterMembers(ts, HasPriorityOf(priority));
    FilterWithin(ts, HasPriorityOf(priority));
    Filter(ts, HasPriorityOf(priority))
  }

  /** The selection by category keeps list order and multiplicity: it
      takes each task on its own, in turn. */
  lemma ByCategoryInOrder(a: seq<Todo>, b: seq<Todo>, t: Todo, category: string)
    ensures ByCategory(a + b, category) == ByCategory(a, category) + ByCategory(b, category)
    ensures ByCategory([t], category) == if InCategory(t, category) then [t] else []
  {
    FilterConcat(a, b, InCategoryOf(category));
    FilterSingle(t, InCategoryOf(category));
  }

  /** The selection by priority keeps list order and multiplicity. */
  lemma ByPriorityInOrder(a: seq<Todo>, b: seq<Todo>, t: Todo, priority: string)
    ensures ByPriority(a + b, priority) == ByPriority(a, priority) + ByPriority(b, priority)
    ensures ByPriority([t], priority) == if HasPriority(t, priority) then [t] else []
  {
    FilterConcat(a, b, HasPriorityOf(priority));
    FilterSingle(t, HasPriorityOf(priority));
  }

  /** Toggling the same index twice restores the completion state and every
      other task. */
  lemma ToggleTwice(ts: seq<Todo>, index: int)
    requires 0 <= index < |ts| && ts[index].completed.Some?
    ensures ts[index := Toggled(ts[index])][index := Toggled(Toggled(ts[index]))] == ts
  {
    ToggledTwice(ts[index]);
  }

  /** Cleanup keeps exactly the open tasks and running it again changes
      nothing. */
  lemma CleanupKeepsOpen(ts: seq<Todo>)
    ensures forall i :: 0 <= i < |ts| ==> (ts[i] in Filter(ts, IsOpen) <==> !IsCompleted(ts[i]))
    ensures Filter(Filter(ts, IsOpen), IsOpen) == Filter(ts, IsOpen)
  {
    FilterMembers(ts, IsOpen);
    FilterIdempotent(ts, IsOpen);
  }
}
