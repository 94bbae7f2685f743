/** The orderings and selections the application shows the task list in:
    the display order (`_sort_by`), the three user sorts of `sort_todos`,
    the status filter of `filter_todos`, the count shown per category, and
    the older display order of the single-file application. */
module Views {
  import opened Wrappers
  import opened Text
  import opened Records
  import opened Ordering
  import opened Queries

  // ------------------------------------------------------------ priorities

  /** `priority_order.get(todo.get('priority', '►'), 2)` with
      `priority_order = {'▲': 1, '►': 2, '▼': 3}`: an unknown priority, and
      Python's `None`, rank as ►. */
  function Rank(s: Slot): (n: int)
    ensures 1 <= n <= 3
    ensures n == 1 <==> Is(s, Medium, High)
    ensures n == 3 <==> Is(s, Medium, Low)
  {
    match Get(s, Medium)
    case None => 2
    case Some(p) => if p == High then 1 else if p == Low then 3 else 2
  }

  lemma SingleLess(a: int, b: int)
    ensures LexLess([a], [b]) <==> a < b
  {
    assert [a][1..] == [] && [b][1..] == [];
  }

  /** Comparing keys that start with one number. */
  lemma ConsLess(x: int, y: int, a: seq<int>, b: seq<int>)
    ensures LexLess([x] + a, [y] + b) <==> x < y || (x == y && LexLess(a, b))
  {
    assert ([x] + a)[1..] == a && ([y] + b)[1..] == b;
  }

  lemma PairLess(a: int, b: int, c: int, d: int)
    ensures LexLess([a, b], [c, d]) <==> a < c || (a == c && b < d)
  {
    ConsLess(a, c, [b], [d]);
    SingleLess(b, d);
    assert [a, b] == [a] + [b] && [c, d] == [c] + [d];
  }

  // --------------------------------------------------------- display order

  /** The key of `_sort_by`: `(completed, rank)`, with `False < True`. */
  function DisplayKey(t: Todo): seq<int> {
    [if IsCompleted(t) then 1 else 0, Rank(t.priority)]
  }

  /** `_sort_by(todos)`: the order every view shows tasks in. */
  function DisplayOrder(ts: seq<Todo>): seq<Todo> {
    SortBy(ts, DisplayKey)
  }

  /** The display order is a permutation that puts every open task before
      every completed one, orders each group ▲, ►, ▼ (an unknown priority
      counting as ►), and keeps tasks that tie in their list order. */
  lemma DisplayOrderSpec(ts: seq<Todo>)
    ensures var r := DisplayOrder(ts);
      multiset(r) == multiset(ts)
      && (forall i, j :: 0 <= i < j < |r| && IsCompleted(r[i]) ==> IsCompleted(r[j]))
      && (forall i, j :: 0 <= i < j < |r| && IsCompleted(r[i]) == IsCompleted(r[j]) ==> Rank(r[i].priority) <= Rank(r[j].priority))
      && (forall k :: KeepKey(r, DisplayKey, k) == KeepKey(ts, DisplayKey, k))
  {
    var r := DisplayOrder(ts);
    SortBySorted(ts, DisplayKey);
    forall i, j | 0 <= i < j < |r|
      ensures IsCompleted(r[i]) ==> IsCompleted(r[j])
      ensures IsCompleted(r[i]) == IsCompleted(r[j]) ==> Rank(r[i].priority) <= Rank(r[j].priority)
    {
      var a, b := DisplayKey(r[j]), DisplayKey(r[i]);
      PairLess(a[0], a[1], b[0], b[1]);
      assert a == [a[0], a[1]] && b == [b[0], b[1]];
    }
    forall k
      ensures KeepKey(r, DisplayKey, k) == KeepKey(ts, DisplayKey, k)
    {
      SortByStable(ts, DisplayKey, k);
    }
  }

  // ------------------------------------------------------------ user sorts

  /** The key of `sort_todos('priority')`. */
  function PriorityKey(t: Todo): seq<int> {
    [Rank(t.priority)]
  }

  /** A task with a deadline: `todo.get('deadline')` is a non-empty string. */
  predicate Dated(t: Todo) {
    t.deadline.Val? && t.deadline.value != ""
  }

  /** The key of `sort_todos('deadline')`: `(0, deadline)` for a dated task,
      `(1, '')` otherwise. */
  function DeadlineKey(t: Todo): seq<int> {
    if Dated(t) then [0] + Codes(t.deadline.value) else [1]
  }

  /** The text `todo.get('text', '')` gives when it is a string. */
  function TextOf(t: Todo): string {
    Get(t.text, "").GetOr("")
  }

  /** The key of `sort_todos('text')`: the lower-cased text. */
  function TextKey(t: Todo): seq<int> {
    Codes(Lower(TextOf(t)))
  }

  /** The list `sort_todos(sort_by)` leaves in the manager and saves, or
      None when sorting raises (a text that is Python's `None` has no
      `lower`): the list sorted in place by the chosen key; any other
      `sort_by` leaves the order as it is. */
  function SortTodos(ts: seq<Todo>, sortBy: string): (r: Option<seq<Todo>>)
    ensures r.None? <==> sortBy == "text" && exists i :: 0 <= i < |ts| && ts[i].text.Null?
    ensures r.Some? ==> multiset(r.value) == multiset(ts)
    ensures sortBy != "priority" && sortBy != "deadline" && sortBy != "text" ==> r == Some(ts)
  {
    if sortBy == "priority" then Some(SortBy(ts, PriorityKey))
    else if sortBy == "deadline" then Some(SortBy(ts, DeadlineKey))
    else if sortBy == "text" then
      if exists i :: 0 <= i < |ts| && ts[i].text.Null? then None else Some(SortBy(ts, TextKey))
    else Some(ts)
  }

  /** Sorting by priority: ▲, ►, ▼, an unknown priority counting as ►,
      tasks of equal rank kept in list order. */
  lemma PriorityOrder(ts: seq<Todo>)
    ensures SortTodos(ts, "priority").Some?
    ensures var r := SortTodos(ts, "priority").value;
      (forall i, j :: 0 <= i < j < |r| ==> Rank(r[i].priority) <= Rank(r[j].priority))
      && (forall k :: KeepKey(r, PriorityKey, k) == KeepKey(ts, PriorityKey, k))
  {
    var r := SortBy(ts, PriorityKey);
    SortBySorted(ts, PriorityKey);
    forall i, j | 0 <= i < j < |r|
      ensures Rank(r[i].priority) <= Rank(r[j].priority)
    {
      SingleLess(Rank(r[j].priority), Rank(r[i].priority));
    }
    forall k
      ensures KeepKey(r, PriorityKey, k) == KeepKey(ts, PriorityKey, k)
    {
      SortByStable(ts, PriorityKey, k);
    }
  }

  /** Sorting by deadline: every dated task comes before every undated one,
      and the dated ones are in ascending order of the deadline string. */
  lemma DeadlineOrder(ts: seq<Todo>)
    ensures SortTodos(ts, "deadline").Some?
    ensures var r := SortTodos(ts, "deadline").value;
      (forall i, j :: 0 <= i < j < |r| && Dated(r[j]) ==> Dated(r[i]))
      && (forall i, j :: 0 <= i < j < |r| && Dated(r[i]) && Dated(r[j]) ==>
            !LexLess(Codes(r[j].deadline.value), Codes(r[i].deadline.value)))
  {
    var r := SortBy(ts, DeadlineKey);
    SortBySorted(ts, DeadlineKey);
    forall i, j | 0 <= i < j < |r|
      ensures Dated(r[j]) ==> Dated(r[i])
      ensures Dated(r[i]) && Dated(r[j]) ==> !LexLess(Codes(r[j].deadline.value), Codes(r[i].deadline.value))
    {
      var a, b := DeadlineKey(r[j]), DeadlineKey(r[i]);
      assert !LexLess(a, b);
      ConsLess(a[0], b[0], a[1..], b[1..]);
      assert a == [a[0]] + a[1..] && b == [b[0]] + b[1..];
    }
  }

  /** Sorting by text: ascending by lower-cased text, ties in list order. */
  lemma TextOrder(ts: seq<Todo>)
    requires forall i :: 0 <= i < |ts| ==> !ts[i].text.Null?
    ensures SortTodos(ts, "text").Some?
    ensures var r := SortTodos(ts, "text").value;
      (forall i, j :: 0 <= i < j < |r| ==> !LexLess(Codes(Lower(TextOf(r[j]))), Codes(Lower(TextOf(r[i])))))
      && (forall k :: KeepKey(r, TextKey, k) == KeepKey(ts, TextKey, k))
  {
    var r := SortBy(ts, TextKey);
    SortBySorted(ts, TextKey);
    forall k
      ensures KeepKey(r, TextKey, k) == KeepKey(ts, TextKey, k)
    {
      SortByStable(ts, TextKey, k);
    }
  }

  // -------------------------------------------------------------- filters

  /** The list `filter_todos(filter_type)` selects before showing it in
      display order: the open tasks, the completed ones, or, for any other
      filter, all of them. */
  function FilterTodos(ts: seq<Todo>, filterType: string): (r: seq<Todo>)
    ensures filterType == "open" ==> forall i :: 0 <= i < |ts| ==> (ts[i] in r <==> !IsCompleted(ts[i]))
    ensures filterType == "completed" ==> forall i :: 0 <= i < |ts| ==> (ts[i] in r <==> IsCompleted(ts[i]))
    ensures filterType != "open" && filterType != "completed" ==> r == ts
    ensures forall i :: 0 <= i < |r| ==> r[i] in ts
  {
    if filterType == "open" then
      FilterMembers(ts, IsOpen);
      assert forall i :: 0 <= i < |Filter(ts, IsOpen)| ==> Filter(ts, IsOpen)[i] in ts by {
        forall i | 0 <= i < |Filter(ts, IsOpen)| ensures Filter(ts, IsOpen)[i] in ts {
          FilterSub(ts, IsOpen, Filter(ts, IsOpen)[i]);
        }
      }
      Filter(ts, IsOpen)
    else if filterType == "completed" then
      FilterMembers(ts, IsCompleted);
      assert forall i :: 0 <= i < |Filter(ts, IsCompleted)| ==> Filter(ts, IsCompleted)[i] in ts by {
        forall i | 0 <= i < |Filter(ts, IsCompleted)| ensures Filter(ts, IsCompleted)[i] in ts {
          FilterSub(ts, IsCompleted, Filter(ts, IsCompleted)[i]);
        }
      }
      Filter(ts, IsCompleted)
    else ts
  }

  /** The status filter keeps list order and multiplicity: filtering a
      list split in two is filtering each part, and a single task is kept
      or dropped whole. */
  lemma FilterTodosInOrder(a: seq<Todo>, b: seq<Todo>, t: Todo, filterType: string)
    ensures FilterTodos(a + b, filterType) == FilterTodos(a, filterType) + FilterTodos(b, filterType)
    ensures FilterTodos([t], filterType) ==
      if (filterType == "open" && IsCompleted(t)) || (filterType == "completed" && !IsCompleted(t)) then [] else [t]
  {
    if filterType == "open" {
      FilterConcat(a, b, IsOpen);
      FilterSingle(t, IsOpen);
    } else if filterType == "completed" {
      FilterConcat(a, b, IsCompleted);
      FilterSingle(t, IsCompleted);
    }
  }

  /** The open and the completed views split the list: together they hold
      as many tasks as the list. */
  lemma {:induction false} FilterSplit(ts: seq<Todo>)
    ensures |FilterTodos(ts, "open")| + |FilterTodos(ts, "completed")| == |ts|
  {
    if ts != [] {
      FilterSplit(ts[1..]);
    }
  }

  /** `count_todos_in_category(category)`: the number of tasks
      `get_by_category` would return; zero exactly when no task is in the
      category. */
  function CountInCategory(ts: seq<Todo>, category: string): (n: nat)
    ensures n == |ByCategory(ts, category)|
    ensures n == 0 <==> forall i :: 0 <= i < |ts| ==> !InCategory(ts[i], category)
  {
    var r := ByCategory(ts, category);
    var n := Count(ts, InCategoryOf(category));
    if r == [] then n
    else
      FilterSub(ts, InCategoryOf(category), r[0]);
      n
  }

  // ------------------------------------------------ older display order

  /** `priority_order.get(todo.get('priority', '►'))` with
      `priority_order = {'▲': 0, '►': 1, '▼': 2}`: None for an unknown
      priority. */
  function LegacyRank(s: Slot): (r: Option<int>)
    ensures r.Some? <==> Is(s, Medium, High) || Is(s, Medium, Medium) || Is(s, Medium, Low)
    ensures r.Some? ==> r.value == Rank(s) - 1
  {
    match Get(s, Medium)
    case None => None
    case Some(p) => if p == High then Some(0) else if p == Medium then Some(1) else if p == Low then Some(2) else None
  }

  function LegacyKey(t: Todo): seq<int> {
    [LegacyRank(t.priority).GetOr(0)]
  }

  /** The older `_sort_by(todos)` (default key `priority`, not reversed):
      None when `sorted` raises, which it does as soon as two or more tasks
      are compared and one of them has an unknown priority (`None` is not
      comparable). */
  function LegacyOrder(ts: seq<Todo>): (r: Option<seq<Todo>>)
    ensures r.None? <==> |ts| >= 2 && exists i :: 0 <= i < |ts| && LegacyRank(ts[i].priority).None?
  {
    if |ts| >= 2 && exists i :: 0 <= i < |ts| && LegacyRank(ts[i].priority).None? then None
    else Some(SortBy(ts, LegacyKey))
  }

  /** Where the older display order succeeds it is the newer priority sort. */
  lemma LegacyAgrees(ts: seq<Todo>)
    ensures LegacyOrder(ts).Some? ==> LegacyOrder(ts).value == SortTodos(ts, "priority").value
  {
    if LegacyOrder(ts).Some? {
      if |ts| < 2 {
        if |ts| == 1 {
          assert ts[..0] == [];
        }
      } else {
        forall i, j | 0 <= i < |ts| && 0 <= j < |ts|
          ensures LexLess(LegacyKey(ts[i]), LegacyKey(ts[j])) <==> LexLess(PriorityKey(ts[i]), PriorityKey(ts[j]))
        {
          SingleLess(LegacyKey(ts[i])[0], LegacyKey(ts[j])[0]);
          SingleLess(Rank(ts[i].priority), Rank(ts[j].priority));
        }
        SortByAgree(ts, LegacyKey, PriorityKey);
      }
    }
  }
}
