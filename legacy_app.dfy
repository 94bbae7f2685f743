/** The single-file application's state around its CSV task manager: the
    category list and its file, and the drag in progress (the dragged
    task's index and the category of the container it was picked up from).
    Widgets and dialogs are left out: a confirmation is a parameter, and the
    category under the pointer when the drag ends is given as the hit
    test's answer. */
module LegacyApp {
  import opened Wrappers
  import opened Records
  import opened Categories
  import CsvStore
  import Views

  /** `drag_data`, reduced to what the drop reads. */
  datatype Drag = Drag(index: int, original: string)

  /** An exception that escapes an event handler; the handler's remaining
      steps do not run. */
  datatype Raised = ValueError | IndexError | TypeError

  /** Every task in the category has a text, so `update` accepts each of
      them when it is moved. */
  predicate MovableFrom(ts: seq<Todo>, category: string) {
    forall i :: 0 <= i < |ts| && ts[i].category == Val(category) ==> !ts[i].text.Absent?
  }

  // ---------------------------------------------------- display refresh

  /** `todo.get('category', 'Allgemein')`: the key `show_all_todos` files a
      task under. */
  function GroupKey(t: Todo): Slot {
    if t.category.Absent? then Val(General) else t.category
  }

  /** `todos_by_category[key]`: the tasks filed under one key, in list
      order. */
  function Group(ts: seq<Todo>, key: Slot): (r: seq<Todo>)
    ensures forall i :: 0 <= i < |r| ==> r[i] in ts && GroupKey(r[i]) == key
    ensures forall i :: 0 <= i < |ts| && GroupKey(ts[i]) == key ==> ts[i] in r
  {
    if ts == [] then []
    else (if GroupKey(ts[0]) == key then [ts[0]] else []) + Group(ts[1..], key)
  }

  /** `show_all_todos` raises `TypeError`: sorting the keys meets a `None`
      category beside a named one, or the older `_sort_by` fails on the
      group of some key. */
  predicate RefreshRaises(ts: seq<Todo>) {
    (exists i, j :: 0 <= i < |ts| && 0 <= j < |ts| && GroupKey(ts[i]).Null? && GroupKey(ts[j]).Val?)
    || exists i :: 0 <= i < |ts| && Views.LegacyOrder(Group(ts, GroupKey(ts[i]))).None?
  }

  /** Two tasks at different positions under one key make a group of two
      or more. */
  lemma {:induction false} GroupTwo(ts: seq<Todo>, i: int, j: int)
    requires 0 <= i < j < |ts| && GroupKey(ts[i]) == GroupKey(ts[j])
    ensures |Group(ts, GroupKey(ts[i]))| >= 2
  {
    var key := GroupKey(ts[i]);
    assert ts[j] == ts[1..][j - 1];
    if i > 0 {
      assert ts[i] == ts[1..][i - 1];
      GroupTwo(ts[1..], i - 1, j - 1);
    } else {
      assert ts[j] in Group(ts[1..], key);
    }
  }

  /** A group of two or more holds a task at some position other than a. */
  lemma {:induction false} GroupOther(ts: seq<Todo>, key: Slot, a: int)
    requires 0 <= a < |ts| && |Group(ts, key)| >= 2
    ensures exists j :: 0 <= j < |ts| && j != a && GroupKey(ts[j]) == key
  {
    if GroupKey(ts[0]) == key && a != 0 {
      assert GroupKey(ts[0]) == key;
    } else if a == 0 {
      var g := Group(ts[1..], key);
      assert |g| >= 1;
      assert g[0] in ts[1..];
      var m :| 0 <= m < |ts[1..]| && ts[1..][m] == g[0];
      assert ts[m + 1] == g[0];
    } else {
      GroupOther(ts[1..], key, a - 1);
      var j :| 0 <= j < |ts[1..]| && j != a - 1 && GroupKey(ts[1..][j]) == key;
      assert ts[j + 1] == ts[1..][j];
    }
  }

  /** Two tasks at positions i and j under one key, the one at i with an
      unknown priority, make the older sort of that key's group raise. */
  lemma SortRaisesAt(ts: seq<Todo>, i: int, j: int)
    requires 0 <= i < |ts| && 0 <= j < |ts| && i != j && GroupKey(ts[i]) == GroupKey(ts[j])
    requires Views.LegacyRank(ts[i].priority).None?
    ensures Views.LegacyOrder(Group(ts, GroupKey(ts[i]))).None?
  {
    var g := Group(ts, GroupKey(ts[i]));
    if i < j { GroupTwo(ts, i, j); } else { GroupTwo(ts, j, i); }
    assert ts[i] in g;
    var m :| 0 <= m < |g| && g[m] == ts[i];
    assert Views.LegacyRank(g[m].priority).None?;
  }

  /** When the older sort of some key's group raises, two tasks at
      different positions share that key and one has an unknown
      priority. */
  lemma SortRaisesWitness(ts: seq<Todo>, i: int) returns (a: int, j: int)
    requires 0 <= i < |ts| && Views.LegacyOrder(Group(ts, GroupKey(ts[i]))).None?
    ensures 0 <= a < |ts| && 0 <= j < |ts| && a != j && GroupKey(ts[a]) == GroupKey(ts[j])
    ensures Views.LegacyRank(ts[a].priority).None?
  {
    var key := GroupKey(ts[i]);
    var g := Group(ts, key);
    var m :| 0 <= m < |g| && Views.LegacyRank(g[m].priority).None?;
    assert g[m] in ts;
    a :| 0 <= a < |ts| && ts[a] == g[m];
    GroupOther(ts, key, a);
    j :| 0 <= j < |ts| && j != a && GroupKey(ts[j]) == key;
  }

  /** The older per-group sort raises exactly when two tasks at different
      positions share a key and one of them has an unknown priority. */
  lemma RefreshSortRaises(ts: seq<Todo>)
    ensures (exists i :: 0 <= i < |ts| && Views.LegacyOrder(Group(ts, GroupKey(ts[i]))).None?) <==>
            (exists i, j :: 0 <= i < |ts| && 0 <= j < |ts| && i != j && GroupKey(ts[i]) == GroupKey(ts[j])
                            && Views.LegacyRank(ts[i].priority).None?)
  {
    if i, j :| 0 <= i < |ts| && 0 <= j < |ts| && i != j && GroupKey(ts[i]) == GroupKey(ts[j])
               && Views.LegacyRank(ts[i].priority).None? {
      SortRaisesAt(ts, i, j);
    }
    if i :| 0 <= i < |ts| && Views.LegacyOrder(Group(ts, GroupKey(ts[i]))).None? {
      var a, j := SortRaisesWitness(ts, i);
    }
  }

  /** Python's `list[index]`: a negative index counts from the end. */
  predicate PyIndexable(index: int, n: int) {
    -n <= index < n
  }

  function PyIndex(index: int, n: int): (r: int)
    requires PyIndexable(index, n)
    ensures 0 <= r < n
    ensures index >= 0 ==> r == index
    ensures index < 0 ==> r == n + index
  {
    if index < 0 then n + index else index
  }

  class TodoApp {
    const manager: CsvStore.TodoManager
    var categories: seq<string>
    var categoriesFile: Option<string>
    /** `drag_data`: present exactly while a drag is in progress. */
    var drag: Option<Drag>

    /** `__init__`: the default category list, then the categories from
        their file, then the task manager, which loads the tasks. */
    constructor(categoriesDisk: Option<string>, todosDisk: Option<string>)
      ensures categories == LoadedCategories(categoriesDisk) && categoriesFile == categoriesDisk
      ensures manager.todos == CsvStore.Loaded(todosDisk)
      ensures drag.None?
    {
      var m := NewManager(todosDisk);
      categories := [General];
      categoriesFile := categoriesDisk;
      drag := None;
      manager := m;
      new;
      LoadCategories();
    }

    /** `TodoManager()`: a new task manager, which has loaded its file. */
    static method NewManager(disk: Option<string>) returns (m: CsvStore.TodoManager)
      ensures fresh(m)
      ensures m.todos == CsvStore.Loaded(disk)
    {
      m := new CsvStore.TodoManager(disk);
    }

    /** `load_categories`: as in the main application, except that a
        missing file is not created. */
    method LoadCategories()
      modifies this`categories
      ensures categories == LoadedCategories(categoriesFile)
      ensures General in categories
    {
      if categoriesFile.None? {
        categories := [General];
      } else {
        var names := ParseNames(categoriesFile.value);
        categories := if names == [] then [General] else names;
      }
      if General !in categories {
        categories := [General] + categories;
      }
    }

    /** `save_categories` */
    method SaveCategories()
      modifies this`categoriesFile
      ensures categoriesFile == Some(SaveText(categories))
    {
      categoriesFile := Some(SaveText(categories));
    }

    /** The inner `save_category` of `add_category`: the same rules as in
        the main application. */
    method SaveCategory(entry: string) returns (r: Option<CategoryError>)
      modifies this`categories, this`categoriesFile
      ensures var added := AddCategory(old(categories), entry);
        (added.Err? ==> r == Some(added.error) && categories == old(categories) && categoriesFile == old(categoriesFile))
        && (added.Ok? ==> r.None? && categories == added.value && categoriesFile == Some(SaveText(categories)))
      ensures General in old(categories) ==> General in categories
    {
      var added := AddCategory(categories, entry);
      if added.Err? {
        return Some(added.error);
      }
      AddCategorySorted(categories, entry);
      categories := added.value;
      SaveCategories();
      r := None;
    }

    /** The inner `delete_category` of `remove_category`: unless the name
        is empty or the user declines (`Ok(false)`), each task in the
        category is moved to the default one in place and merged back
        through `update`, and then the name leaves the list, which is saved
        (`Ok(true)`). A task without text makes `update` raise, and a name
        not in the list makes `list.remove` raise, after the tasks were
        moved. */
    method DeleteCategory(category: string, confirmed: bool) returns (r: Result<bool, Raised>)
      modifies this`categories, this`categoriesFile, manager
      ensures category == [] || !confirmed ==>
        r == Ok(false) && manager.todos == old(manager.todos) && manager.file == old(manager.file)
        && categories == old(categories) && categoriesFile == old(categoriesFile)
      ensures r == Ok(false) <==> category == [] || !confirmed
      ensures r.Err? ==> r.error == ValueError
      ensures category != [] && confirmed && MovableFrom(old(manager.todos), category) ==>
        manager.todos == ReassignAll(old(manager.todos), category)
      ensures category != [] && confirmed && MovableFrom(old(manager.todos), category) ==>
        manager.file == if exists i :: 0 <= i < |old(manager.todos)| && old(manager.todos)[i].category == Val(category)
                        then Some(CsvStore.Encode(manager.todos)) else old(manager.file)
      ensures r == Ok(true) <==>
        category != [] && confirmed && category in old(categories) && MovableFrom(old(manager.todos), category)
      ensures r == Ok(true) ==> categories == RemoveFirst(old(categories), category).value && categoriesFile == Some(SaveText(categories))
      ensures r != Ok(true) ==> categories == old(categories) && categoriesFile == old(categoriesFile)
      ensures General in old(categories) && category != General ==> General in categories
    {
      if category == [] || !confirmed {
        return Ok(false);
      }
      var moved := MoveToGeneral(category);
      if moved.Some? {
        return Err(moved.value);
      }
      var rest := RemoveFirst(categories, category);
      if rest.None? {
        return Err(ValueError);
      }
      ghost var cats := categories;
      categories := rest.value;
      SaveCategories();
      if General in cats && category != General {
        KeptName(cats, category, General);
      }
      r := Ok(true);
    }

    /** The loop of `delete_category`: every task in the category, in
        order, is moved to the default category in place and merged back
        through `update`; the first task without text makes `update` raise,
        leaving the later tasks untouched. */
    method MoveToGeneral(category: string) returns (r: Option<Raised>)
      modifies manager
      ensures r.None? <==> MovableFrom(old(manager.todos), category)
      ensures r.None? ==> manager.todos == ReassignAll(old(manager.todos), category)
      ensures r.None? ==>
        manager.file == if exists i :: 0 <= i < |old(manager.todos)| && old(manager.todos)[i].category == Val(category)
                        then Some(CsvStore.Encode(manager.todos)) else old(manager.file)
      ensures r.Some? ==> r.value == ValueError
    {
      ghost var before := manager.todos;
      ghost var touched := false;
      var i := 0;
      while i < |manager.todos|
        invariant 0 <= i <= |manager.todos| == |before|
        invariant forall j :: 0 <= j < i ==> manager.todos[j] == Reassigned(before[j], category)
        invariant forall j :: i <= j < |before| ==> manager.todos[j] == before[j]
        invariant forall j :: 0 <= j < i && before[j].category == Val(category) ==> !before[j].text.Absent?
        invariant touched <==> exists j :: 0 <= j < i && before[j].category == Val(category)
        invariant touched ==> manager.file == Some(CsvStore.Encode(manager.todos))
        invariant !touched ==> manager.file == old(manager.file)
      {
        if manager.todos[i].category == Val(category) {
          var moved := manager.todos[i].(category := Val(General));
          manager.todos := manager.todos[i := moved];
          var updated := manager.Update(i, moved);
          if updated.Err? {
            return Some(ValueError);
          }
          touched := true;
        }
        i := i + 1;
      }
      assert manager.todos == ReassignAll(before, category);
      r := None;
    }

    // ------------------------------------------------------ drag and drop

    /** `start_drag`: with no drag in progress the task's index and its
        container's category are captured; a second `start_drag` while one
        is in progress does nothing. */
    method StartDrag(index: int, category: string)
      modifies this`drag
      ensures old(drag).Some? ==> drag == old(drag)
      ensures old(drag).None? ==> drag == Some(Drag(index, category))
    {
      if drag.None? {
        drag := Some(Drag(index, category));
      }
    }

    /** `end_drag` with `hit` the category of the container under the
        pointer. Only a drop on a container whose category differs from
        the one the drag started in changes anything: the task at the
        dragged index (counted from the end when negative) takes that
        category in place and is merged back through `update`, which
        saves for a non-negative index; `show_all_todos` then redraws the
        list, and raises `TypeError` when RefreshRaises holds of the new
        tasks. The drag ends, unless indexing, `update` or the redraw
        raises. */
    method EndDrag(hit: Option<string>) returns (r: Option<Raised>)
      modifies this`drag, manager
      ensures old(drag).None? ==>
        r.None? && drag == old(drag) && manager.todos == old(manager.todos) && manager.file == old(manager.file)
      ensures old(drag).Some? && (hit.None? || hit.value == old(drag).value.original) ==>
        r.None? && drag.None? && manager.todos == old(manager.todos) && manager.file == old(manager.file)
      ensures r.None? <==> drag.None?
      ensures r.Some? ==> old(drag).Some? && drag == old(drag)
      ensures r == Some(IndexError) ==> manager.todos == old(manager.todos) && manager.file == old(manager.file)
      ensures r == Some(IndexError) <==>
        (old(drag).Some? && hit.Some? && hit.value != old(drag).value.original
         && !PyIndexable(old(drag).value.index, |old(manager.todos)|))
      ensures (old(drag).Some? && hit.Some? && hit.value != old(drag).value.original
               && PyIndexable(old(drag).value.index, |old(manager.todos)|)) ==>
        var k := PyIndex(old(drag).value.index, |old(manager.todos)|);
        manager.todos == old(manager.todos)[k := old(manager.todos)[k].(category := Val(hit.value))]
        && (r == Some(ValueError) <==> old(drag).value.index >= 0 && old(manager.todos)[k].text.Absent?)
        && (r == Some(TypeError) <==> r != Some(ValueError) && RefreshRaises(manager.todos))
        && manager.file == if old(drag).value.index >= 0 && r != Some(ValueError) then Some(CsvStore.Encode(manager.todos)) else old(manager.file)
    {
      if drag.None? {
        return None;
      }
      if hit.Some? && hit.value != drag.value.original {
        var index := drag.value.index;
        if !PyIndexable(index, |manager.todos|) {
          return Some(IndexError);
        }
        var k := PyIndex(index, |manager.todos|);
        var moved := manager.todos[k].(category := Val(hit.value));
        manager.todos := manager.todos[k := moved];
        var updated := manager.Update(index, moved);
        if updated.Err? {
          return Some(ValueError);
        }
        if RefreshRaises(manager.todos) {
          return Some(TypeError);
        }
      }
      drag := None;
      r := None;
    }
  }

  /** A name other than the removed one stays in the list. */
  lemma KeptName(cats: seq<string>, name: string, x: string)
    requires name in cats && x in cats && x != name
    ensures x in RemoveFirst(cats, name).value
  {
    var r := RemoveFirst(cats, name).value;
    assert x in multiset(cats);
    assert multiset(r)[x] == multiset(cats)[x];
  }
}
