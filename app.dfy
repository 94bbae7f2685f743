/** The main application's state around its task manager: the category
    list and its file, the settings and their file, the window size, and the
    drag-and-drop state (the dragged task's index, the category under the
    pointer). Widgets, dialogs and the screen are left out: a confirmation
    is a parameter, the category under the pointer is given as the hit
    test's answer, and the screen size is passed in. */
module App {
  import opened Wrappers
  import opened Records
  import opened Ordering
  import opened Categories
  import opened Settings
  import PipeStore
  import Views

  /** The position name `setup_window` applies: the stored one, bottom
      right when none is stored (an integer is no position name and also
      ends up bottom right). */
  function PositionOf(v: Option<Value>): string {
    match v
    case Some(Str(s)) => s
    case _ => "br"
  }

  class TodoApp {
    const manager: PipeStore.TodoManager
    var categories: seq<string>
    var categoriesFile: Option<string>
    var settings: Dict
    var settingsFile: Option<string>
    var width: int
    var height: int
    var theme: string
    /** `drag_data`: present while a task is dragged; the task's index. */
    var dragIndex: Option<int>
    /** `current_dropzone`: the category container last under the pointer. */
    var currentDropzone: Option<string>

    /** What `load_categories` and `load_todos` establish and the editing
        operations keep: the default category is known, and every task's
        category is a non-empty known one. */
    predicate Consistent()
      reads this, manager
    {
      General in categories && forall i :: 0 <= i < |manager.todos| ==> Known(manager.todos[i], categories)
    }

    /** `__init__`: the settings, the categories, the task manager, then
        the tasks. Placing the window on the screen (`setup_window`) is the
        separate `SetupWindow`, which takes the screen size. */
    constructor(settingsDisk: Option<string>, categoriesDisk: Option<string>, todosDisk: Option<string>)
      ensures Consistent()
      ensures dragIndex.None? && currentDropzone.None?
    {
      settings, width, height, theme := [], 0, 0, "";
      settingsFile := settingsDisk;
      categories := [];
      categoriesFile := categoriesDisk;
      dragIndex, currentDropzone := None, None;
      manager := new PipeStore.TodoManager(todosDisk);
      new;
      LoadInitialSettings();
      LoadCategories();
      LoadTodos();
      dragIndex, currentDropzone := None, None;
    }

    /** `setup_window` on a screen of `screenW` by `screenH`: the stored
        position name (`br` when none is stored) is applied as
        `apply_window_position` does it. A known corner or a `custom`
        position with integer coordinates is stored and saved, an unknown
        name is stored and saved as `br`, and a `custom` coordinate that is
        not an integer leaves the settings and their file unchanged. */
    method SetupWindow(screenW: int, screenH: int)
      modifies this`settings, this`settingsFile
      ensures var s := PlacedSettings(old(settings), PositionOf(Lookup(old(settings), "window_position")), screenW, screenH, width, height);
        (s.Some? ==> settings == s.value && settingsFile == Some(Serialize(settings)))
        && (s.None? ==> settings == old(settings) && settingsFile == old(settingsFile))
    {
      ApplyWindowPosition(PositionOf(Lookup(settings, "window_position")), screenW, screenH);
    }

    /** `load_initial_settings`: the settings file over the defaults, the
        window size and the theme. */
    method LoadInitialSettings()
      modifies this`settings, this`width, this`height, this`theme
      ensures Initial(settings, width, height, theme) == Settings.LoadInitialSettings(settingsFile)
      ensures theme in Themes
    {
      var init := Settings.LoadInitialSettings(settingsFile);
      settings, width, height, theme := init.settings, init.width, init.height, init.theme;
      InitialSettingsWellFormed(settingsFile);
    }

    // --------------------------------------------------------- categories

    /** `load_categories`: a missing file is created holding the default
        category. */
    method LoadCategories()
      modifies this`categories, this`categoriesFile
      ensures categories == LoadedCategories(old(categoriesFile))
      ensures General in categories
      ensures categoriesFile == if old(categoriesFile).None? then Some(SaveText([General])) else old(categoriesFile)
    {
      if categoriesFile.None? {
        categories := [General];
        SaveCategories();
      } else {
        var names := ParseNames(categoriesFile.value);
        categories := if names == [] then [General] else names;
      }
      if General !in categories {
        categories := [General] + categories;
      }
    }

    /** `save_categories` */
    method SaveCategories()
      modifies this`categoriesFile
      ensures categoriesFile == Some(SaveText(categories))
    {
      categoriesFile := Some(SaveText(categories));
    }

    /** `load_todos`: reload the tasks, then give every task whose category
        is missing, `None`, empty or unknown the default category, in
        memory only. */
    method LoadTodos()
      requires General in categories
      modifies manager
      ensures var loaded := if old(manager.file).None? then [] else PipeStore.Decode(old(manager.file).value);
        |manager.todos| == |loaded| && forall i :: 0 <= i < |loaded| ==> manager.todos[i] == Coerced(loaded[i], categories)
      ensures manager.file == if old(manager.file).None? then Some("") else old(manager.file)
      ensures Consistent()
    {
      manager.Load();
      ghost var loaded := manager.todos;
      var i := 0;
      while i < |manager.todos|
        invariant 0 <= i <= |manager.todos| == |loaded|
        invariant forall j :: 0 <= j < i ==> manager.todos[j] == Coerced(loaded[j], categories)
        invariant forall j :: i <= j < |loaded| ==> manager.todos[j] == loaded[j]
        invariant manager.file == if old(manager.file).None? then Some("") else old(manager.file)
      {
        manager.todos := manager.todos[i := Coerced(manager.todos[i], categories)];
        i := i + 1;
      }
    }

    /** The inner `save_category` of `add_category`: a blank or known name
        is refused; otherwise the name joins the list, which is sorted and
        saved. */
    method SaveCategory(entry: string) returns (r: Option<CategoryError>)
      modifies this`categories, this`categoriesFile
      ensures var added := AddCategory(old(categories), entry);
        (added.Err? ==> r == Some(added.error) && categories == old(categories) && categoriesFile == old(categoriesFile))
        && (added.Ok? ==> r.None? && categories == added.value && categoriesFile == Some(SaveText(categories)))
      ensures old(Consistent()) ==> Consistent()
    {
      var added := AddCategory(categories, entry);
      if added.Err? {
        return Some(added.error);
      }
      AddCategorySorted(categories, entry);
      categories := added.value;
      SaveCategories();
      r := None;
    }

    /** The inner `delete_category` of `remove_category`: unless the name
        is empty or the user declines, every task in the category is moved
        to the default one and written back through `update`, then the name
        leaves the list, which is saved. A name not in the list raises in
        `list.remove` after the tasks were moved (`false`). */
    method DeleteCategory(category: string, confirmed: bool) returns (removed: bool)
      modifies this`categories, this`categoriesFile, manager
      ensures category == [] || !confirmed ==>
        !removed && manager.todos == old(manager.todos) && manager.file == old(manager.file)
        && categories == old(categories) && categoriesFile == old(categoriesFile)
      ensures category != [] && confirmed ==> manager.todos == ReassignAll(old(manager.todos), category)
      ensures category != [] && confirmed ==>
        manager.file == if exists i :: 0 <= i < |old(manager.todos)| && old(manager.todos)[i].category == Val(category)
                        then Some(PipeStore.Encode(manager.todos)) else old(manager.file)
      ensures removed <==> category != [] && confirmed && category in old(categories)
      ensures removed ==> categories == RemoveFirst(old(categories), category).value && categoriesFile == Some(SaveText(categories))
      ensures !removed ==> categories == old(categories) && categoriesFile == old(categoriesFile)
      ensures old(Consistent()) && category != General ==> Consistent()
    {
      if category == [] || !confirmed {
        return false;
      }
      ghost var before := manager.todos;
      MoveToGeneral(category);
      var rest := RemoveFirst(categories, category);
      if rest.None? {
        removed := false;
      } else {
        ghost var cats := categories;
        categories := rest.value;
        SaveCategories();
        removed := true;
        KeptNames(cats, category);
      }
      if old(Consistent()) && category != General {
        ReassignedKnown(before, category, old(categories), categories);
      }
    }

    /** The loop of `delete_category`: every task in the category, in
        order, is moved to the default category in place and written back
        through `update`, which saves. */
    method MoveToGeneral(category: string)
      modifies manager
      ensures manager.todos == ReassignAll(old(manager.todos), category)
      ensures manager.file == if exists i :: 0 <= i < |old(manager.todos)| && old(manager.todos)[i].category == Val(category)
                              then Some(PipeStore.Encode(manager.todos)) else old(manager.file)
    {
      ghost var before := manager.todos;
      ghost var touched := false;
      var i := 0;
      while i < |manager.todos|
        invariant 0 <= i <= |manager.todos| == |before|
        invariant forall j :: 0 <= j < i ==> manager.todos[j] == Reassigned(before[j], category)
        invariant forall j :: i <= j < |before| ==> manager.todos[j] == before[j]
        invariant touched <==> exists j :: 0 <= j < i && before[j].category == Val(category)
        invariant touched ==> manager.file == Some(PipeStore.Encode(manager.todos))
        invariant !touched ==> manager.file == old(manager.file)
      {
        if manager.todos[i].category == Val(category) {
          var moved := manager.todos[i].(category := Val(General));
          manager.todos := manager.todos[i := moved];
          manager.Update(i, moved);
          touched := true;
        }
        i := i + 1;
      }
      assert manager.todos == ReassignAll(before, category);
    }

    // ------------------------------------------------------ drag and drop

    /** `start_drag`: the task's index becomes the dragged one. */
    method StartDrag(index: int)
      modifies this`dragIndex
      ensures dragIndex == Some(index)
    {
      dragIndex := Some(index);
    }

    /** `find_dropzone` given the hit test's answer: a category container
        under the pointer becomes the drop target; elsewhere the previous
        target stays. */
    method FindDropzone(hit: Option<string>)
      modifies this`currentDropzone
      ensures currentDropzone == if hit.Some? then hit else old(currentDropzone)
    {
      if hit.Some? {
        currentDropzone := hit;
      }
    }

    /** `drop_todo`: an index in range moves that task to the category and
        saves; any other index changes nothing. */
    method DropTodo(index: int, category: string)
      modifies manager
      ensures 0 <= index < |old(manager.todos)| ==>
        manager.todos == old(manager.todos)[index := old(manager.todos)[index].(category := Val(category))]
        && manager.file == Some(PipeStore.Encode(manager.todos))
      ensures !(0 <= index < |old(manager.todos)|) ==> manager.todos == old(manager.todos) && manager.file == old(manager.file)
    {
      if 0 <= index < |manager.todos| {
        manager.todos := manager.todos[index := manager.todos[index].(category := Val(category))];
        manager.Save();
      }
    }

    /** `end_drag`: with a drag active, drop the task on the current target
        if there is one, then clear both the target and the drag; with no
        drag active nothing happens. */
    method EndDrag()
      modifies this`dragIndex, this`currentDropzone, manager
      ensures old(dragIndex).None? ==>
        dragIndex == old(dragIndex) && currentDropzone == old(currentDropzone)
        && manager.todos == old(manager.todos) && manager.file == old(manager.file)
      ensures old(dragIndex).Some? ==> dragIndex.None? && currentDropzone.None?
      ensures old(dragIndex).Some? && old(currentDropzone).Some? && 0 <= old(dragIndex).value < |old(manager.todos)| ==>
        var i := old(dragIndex).value;
        manager.todos == old(manager.todos)[i := old(manager.todos)[i].(category := Val(old(currentDropzone).value))]
        && manager.file == Some(PipeStore.Encode(manager.todos))
      ensures old(currentDropzone).None? || !(0 <= old(dragIndex).GetOr(-1) < |old(manager.todos)|) ==>
        manager.todos == old(manager.todos) && manager.file == old(manager.file)
      ensures old(Consistent()) && (old(currentDropzone).Some? ==> old(currentDropzone).value != [] && old(currentDropzone).value in categories) ==> Consistent()
    {
      if dragIndex.Some? {
        if currentDropzone.Some? {
          DropTodo(dragIndex.value, currentDropzone.value);
          currentDropzone := None;
        }
        dragIndex := None;
      }
    }

    // -------------------------------------------------------------- tasks

    /** `toggle_todo_completed`: an index in range has its task's completion
        flipped in place, written back through `update` and saved (true);
        any other index changes nothing (the implicit `None`, false). */
    method ToggleTodoCompleted(index: int) returns (r: bool)
      modifies manager
      ensures r <==> 0 <= index < |old(manager.todos)|
      ensures r ==> manager.todos == old(manager.todos)[index := Toggled(old(manager.todos)[index])]
                    && manager.file == Some(PipeStore.Encode(manager.todos))
      ensures !r ==> manager.todos == old(manager.todos) && manager.file == old(manager.file)
    {
      if 0 <= index < |manager.todos| {
        var t := Toggled(manager.todos[index]);
        manager.todos := manager.todos[index := t];
        manager.Update(index, t);
        manager.Save();
        r := true;
      } else {
        r := false;
      }
    }

    /** `sort_todos`: sort the task list in place by the key named and
        save it (an unknown name saves it unsorted); a key that raises
        leaves list and file as they were. */
    method SortTodos(sortBy: string)
      modifies manager
      ensures var sorted := Views.SortTodos(old(manager.todos), sortBy);
        (sorted.Some? ==> manager.todos == sorted.value && manager.file == Some(PipeStore.Encode(manager.todos)))
        && (sorted.None? ==> manager.todos == old(manager.todos) && manager.file == old(manager.file))
    {
      var sorted := Views.SortTodos(manager.todos, sortBy);
      if sorted.Some? {
        manager.todos := sorted.value;
        manager.Save();
      }
    }

    // ----------------------------------------------------------- settings

    /** `save_settings(settings)`: merge the given entries into the
        settings and write them all out. */
    method SaveSettings(updates: Dict)
      modifies this`settings, this`settingsFile
      ensures settings == Update(old(settings), updates)
      ensures settingsFile == Some(Serialize(settings))
    {
      settings := Update(settings, updates);
      WriteSettings();
    }

    /** `save_settings()` without entries: write the settings out as they
        are. */
    method WriteSettings()
      modifies this`settingsFile
      ensures settingsFile == Some(Serialize(settings))
    {
      settingsFile := Some(Serialize(settings));
    }

    /** `apply_window_position` on a screen of `screenW` by `screenH`:
        store the placement and save the settings; a stored custom
        coordinate that is not an integer changes nothing. */
    method ApplyWindowPosition(position: string, screenW: int, screenH: int)
      modifies this`settings, this`settingsFile
      ensures var s := PlacedSettings(old(settings), position, screenW, screenH, width, height);
        (s.Some? ==> settings == s.value && settingsFile == Some(Serialize(settings)))
        && (s.None? ==> settings == old(settings) && settingsFile == old(settingsFile))
    {
      var s := PlacedSettings(settings, position, screenW, screenH, width, height);
      if s.Some? {
        settings := s.value;
        WriteSettings();
      }
    }
  }

  /** Names other than the removed one stay in the list. */
  lemma KeptNames(cats: seq<string>, name: string)
    requires name in cats
    ensures forall x :: x in cats && x != name ==> x in RemoveFirst(cats, name).value
  {
    var r := RemoveFirst(cats, name).value;
    forall x | x in cats && x != name ensures x in r {
      assert x in multiset(cats);
      assert multiset(r)[x] == multiset(cats)[x];
    }
  }

  /** After a category's tasks were moved to the default category, every
      task's category is still known once the category is gone. */
  lemma ReassignedKnown(ts: seq<Todo>, name: string, cats: seq<string>, cats': seq<string>)
    requires name != General && General in cats
    requires forall i :: 0 <= i < |ts| ==> Known(ts[i], cats)
    requires forall x :: x in cats && x != name ==> x in cats'
    ensures General in cats'
    ensures forall i :: 0 <= i < |ts| ==> Known(ReassignAll(ts, name)[i], cats')
  {
    ReassignEmpties(ts, name);
  }
}
