/** A task as both task managers hold it: a dictionary with the keys
    `text`, `category`, `priority`, `deadline` and `completed`. Each key may be
    missing, and the four string keys may also hold Python's `None` (a short
    CSV row is read back with `None` in the columns it lacks). */
module Records {
  import opened Wrappers

  /** The value under one string key of a task dictionary. */
  datatype Slot = Absent | Null | Val(value: string)

  datatype Todo = Todo(text: Slot, category: Slot, priority: Slot, deadline: Slot, completed: Option<bool>)

  /** The default category. */
  const General: string := "Allgemein"
  /** The three priorities: high, medium (the default) and low. */
  const High: string := "▲"
  const Medium: string := "►"
  const Low: string := "▼"

  /** `todo.get(key, default)` where the caller needs a string: `None` when
      the key holds Python's `None`. */
  function Get(s: Slot, default: string): (r: Option<string>)
    ensures s.Val? ==> r == Some(s.value)
    ensures s.Absent? ==> r == Some(default)
    ensures s.Null? <==> r.None?
  {
    match s
    case Absent => Some(default)
    case Null => None
    case Val(v) => Some(v)
  }

  /** `todo.get(key, default) == v` for a string `v`. */
  predicate Is(s: Slot, default: string, v: string) {
    Get(s, default) == Some(v)
  }

  /** The truth value of `todo.get('completed', False)`. */
  predicate IsCompleted(t: Todo) {
    t.completed.GetOr(false)
  }

  predicate IsOpen(t: Todo) {
    !IsCompleted(t)
  }

  /** A record that carries all five keys with proper values, as both
      managers' `load` produce them. */
  predicate Complete(t: Todo) {
    t.text.Val? && t.category.Val? && t.priority.Val? && t.deadline.Val? && t.completed.Some?
  }

  /** The record both loaders build for a plain line of text. */
  function PlainTodo(text: string): (t: Todo)
    ensures Complete(t) && !IsCompleted(t)
  {
    Todo(Val(text), Val(General), Val(Medium), Val(""), Some(false))
  }

  /** `dict.update`: every key present in `patch` overrides, every other key
      keeps its old value. */
  function Merge(old_: Todo, patch: Todo): (r: Todo)
    ensures patch.text != Absent ==> r.text == patch.text
    ensures patch.text == Absent ==> r.text == old_.text
    ensures patch.category != Absent ==> r.category == patch.category
    ensures patch.category == Absent ==> r.category == old_.category
    ensures patch.priority != Absent ==> r.priority == patch.priority
    ensures patch.priority == Absent ==> r.priority == old_.priority
    ensures patch.deadline != Absent ==> r.deadline == patch.deadline
    ensures patch.deadline == Absent ==> r.deadline == old_.deadline
    ensures r.completed == if patch.completed.Some? then patch.completed else old_.completed
  {
    Todo(
      if patch.text == Absent then old_.text else patch.text,
      if patch.category == Absent then old_.category else patch.category,
      if patch.priority == Absent then old_.priority else patch.priority,
      if patch.deadline == Absent then old_.deadline else patch.deadline,
      if patch.completed.None? then old_.completed else patch.completed)
  }

  /** Merging a record with all five keys replaces the old one entirely. */
  lemma MergeComplete(old_: Todo, patch: Todo)
    requires Complete(patch)
    ensures Merge(old_, patch) == patch
  {
  }

  /** Merging is idempotent: applying the same patch twice is applying it once. */
  lemma MergeIdempotent(old_: Todo, patch: Todo)
    ensures Merge(Merge(old_, patch), patch) == Merge(old_, patch)
  {
  }

  /** `setdefault` on each of the four optional keys, as `add` does it. */
  function WithDefaults(t: Todo): (r: Todo)
    ensures r.text == t.text
    ensures t.category != Absent ==> r.category == t.category
    ensures t.category == Absent ==> r.category == Val(General)
    ensures t.priority != Absent ==> r.priority == t.priority
    ensures t.priority == Absent ==> r.priority == Val(Medium)
    ensures t.deadline != Absent ==> r.deadline == t.deadline
    ensures t.deadline == Absent ==> r.deadline == Val("")
    ensures r.completed == Some(t.completed.GetOr(false))
  {
    Merge(Todo(t.text, Val(General), Val(Medium), Val(""), Some(false)), t)
  }

  /** Flipping `completed` the way both `toggle_completed`s do it. */
  function Toggled(t: Todo): (r: Todo)
    ensures IsCompleted(r) == !IsCompleted(t)
    ensures r.text == t.text && r.category == t.category && r.priority == t.priority && r.deadline == t.deadline
  {
    t.(completed := Some(!IsCompleted(t)))
  }

  /** Two toggles give back the original completion state. */
  lemma ToggledTwice(t: Todo)
    ensures IsCompleted(Toggled(Toggled(t))) == IsCompleted(t)
    ensures t.completed.Some? ==> Toggled(Toggled(t)) == t
  {
  }
}
