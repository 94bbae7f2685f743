# MY_TODO task engine in Dafny

MY_TODO is a small desktop to-do list. The packaged application keeps its
tasks in `todos.txt`, one per line as `text|category|priority|deadline|completed`.
An older single-file version of the application stores the same file as CSV
with a header, and reads any other file as plain text, one task per line.
Both versions also keep:

- a category list in `categories.txt`, which always holds the default
  category `Allgemein`;
- settings in `settings.txt`, as `key=value` lines;
- a drag-and-drop gesture that moves a task to another category.

An update check compares dotted version numbers.

This project models that engine and proves properties of it. Module by module:

- `Records` is the task dictionary. Every key may be missing, and a string key
  may also hold Python's `None`.
- `Text` covers the string operations the engine relies on: `strip`,
  `split`, `join`, `lower`, `in`, `int()`, `str()`, line splitting and
  newline translation.
- `Ordering` holds the sequence tools:
  - a filter;
  - a stable sort on integer-sequence keys, which is how Python compares
    tuples and strings;
  - the lexicographic order it sorts by.
- `Queries` holds the selections and edits that both task managers share.
- `PipeStore` is the packaged application's `TodoManager`. It is a class whose
  task list and file are fields that every operation rewrites.
- `Csv` models Python's `csv` writer and reader in the default dialect. The
  reader is the reader's state machine, with its field size limit.
- `CsvStore` is the single-file application's `TodoManager`:
  - loading CSV, with the plain-text fallback;
  - saving CSV;
  - a validating `add` and a merging `update`.
- `Views` holds the display order, the three user sorts, the status filter,
  the per-category count, and the older display order.
- `Categories` covers loading, saving, adding and removing categories.
- `Settings` covers:
  - the ordered settings dictionary;
  - parsing and writing the settings file;
  - window size and theme;
  - window placement with clamping.
- `Updater` covers version comparison and the update decision.
- `App` is the packaged application's state: the task manager, the
  categories, the settings and the drag-and-drop state. Its methods are the
  event handlers that change that state.
- `LegacyApp` is the single-file application's state around the CSV task
  manager: its categories and its guarded drag-and-drop.

Files are values. A file is `None` when it does not exist, and otherwise it is
the text stored in it. Text read from a file goes through the universal-newline
translation of text mode. The screen size, the user's confirmation, the
entered category name and the category under the pointer are parameters. The
pipe-format task file, the category files and the settings file are written
in text mode, and the model writes them with `"\n"` as the line separator;
text mode writes the platform's line separator instead, which reading
translates back. The CSV task file is opened with `newline=''`, and the
model writes its rows ending in `"\r\n"` as the `csv` writer does.

## Model

| member | source | states |
|---|---|---|
| Records.Merge | todo.py:1127-1129 | every key present in the argument overrides the stored value, every absent key keeps it |
| Records.MergeComplete | todo.py:1119-1131 | merging a record with all five keys replaces the stored task entirely |
| Records.MergeIdempotent | todo.py:1127-1129 | applying the same update twice is applying it once |
| Records.WithDefaults | todo.py:1108-1113 | `setdefault` fills category `Allgemein`, priority `►`, deadline `''` and completed `False` only where the key is missing, and keeps the text |
| Records.PlainTodo | todo.py:1041-1048 | a plain-text line becomes a complete, open task in the default category |
| Records.Toggled | app/todo_manager.py:95-99 | completion is flipped and the four other fields are unchanged |
| Records.ToggledTwice | app/todo_manager.py:95-99 | toggling twice restores the completion state, and the task itself when `completed` was present |
| Queries.ByCategory | app/todo_manager.py:78-81 | every task of the list whose category (default `Allgemein`) equals the argument is selected, and every selected task is such a task of the list |
| Queries.ByCategoryInOrder | app/todo_manager.py:78-81 | the selection keeps list order and multiplicity: a list split in two selects each part in turn, and a single task is kept or dropped whole |
| Queries.ByPriority | app/todo_manager.py:83-86 | every task of the list whose priority (default `►`) equals the argument is selected, and every selected task is such a task of the list |
| Queries.ByPriorityInOrder | app/todo_manager.py:83-86 | the selection keeps list order and multiplicity, as for the category |
| Queries.ToggleTwice | app/todo_manager.py:95-99 | toggling one index twice gives back the list, when that task has a `completed` key |
| Queries.CleanupKeepsOpen | app/todo_manager.py:101-105 | cleanup keeps exactly the open tasks, and running it again changes nothing |
| PipeStore.Show | app/todo_manager.py:45-48 | a present key is written as its value, a missing key as its default |
| PipeStore.DecodeLine | app/todo_manager.py:20-31 | a line gives a task exactly when it is not blank and its stripped form splits into at least five `\|` fields; the task has all five keys, the first four fields as its strings, and is completed exactly when the fifth field is `1` |
| PipeStore.Stored | app/todo_manager.py:24-30 | the task as it is read back is complete, keeps its completion, and equals a task that already had all five keys |
| PipeStore.DecodeEncodeLine | app/todo_manager.py:20-52 | the line `save` writes for a storable task is read back as that task |
| PipeStore.DecodeEncode | app/todo_manager.py:14-53 | the lines of a saved file are read back as the saved tasks, in order |
| PipeStore.RoundTrip | app/todo_manager.py:14-53 | loading the file `save` wrote gives back the list, when no field holds `\|` or a line break and the text does not start with whitespace |
| PipeStore.SearchMatch | app/todo_manager.py:91-93 | a task matches exactly when its lower-cased text, or else its lower-cased category, contains the query; the check raises exactly when a value it reaches is `None` |
| PipeStore.Search | app/todo_manager.py:88-93 | it is None exactly when some task makes the check raise; otherwise it is the list filtered by the match, so exactly the matching tasks, in list order, each as often as in the list |
| PipeStore.SearchInOrder | app/todo_manager.py:88-93 | searching a list split in two is searching each part in turn, so order and multiplicity are kept |
| PipeStore.SearchSingle | app/todo_manager.py:91-93 | a single task is kept, dropped or makes the search raise, as its match says |
| Ordering.TryFilterIsFilter | app/todo_manager.py:91-93 | a comprehension whose condition may raise, when it does not raise, keeps exactly the elements the condition holds for, in order |
| PipeStore.TodoManager.constructor | app/todo_manager.py:8-12 | the new manager holds the decoded file; a missing file gives no tasks and is created empty |
| PipeStore.TodoManager.Load | app/todo_manager.py:14-37 | the list becomes the decoded file; a missing file gives the empty list and an empty file |
| PipeStore.TodoManager.Save | app/todo_manager.py:39-55 | the file becomes one encoded line per task, in order |
| PipeStore.TodoManager.Add | app/todo_manager.py:57-60 | the task is appended and the file rewritten |
| PipeStore.TodoManager.Update | app/todo_manager.py:62-66 | an index in range has its task replaced wholesale and saved; any other index changes nothing |
| PipeStore.TodoManager.Delete | app/todo_manager.py:68-72 | an index in range loses exactly that task, the later ones moving down; any other index changes nothing |
| PipeStore.TodoManager.ToggleCompleted | app/todo_manager.py:95-99 | only that task's completion changes; an index out of range changes nothing |
| PipeStore.TodoManager.Cleanup | app/todo_manager.py:101-105 | the list becomes its open tasks in order, none of them completed, and is saved |
| PipeStore.TodoManager.SaveTodos | app/todo_manager.py:107-110 | the list is replaced and saved |
| Csv.RoundTrip | todo.py:1092-1100 | reading what the writer wrote, after newline translation, gives back every row, when every row has two fields or more and no field holds a carriage return or exceeds the field size limit |
| Csv.EmptyFieldRow | todo.py:1099-1100 | a row of one empty field is written quoted and reads back as that row, not as a blank line |
| Csv.FirstRecord | todo.py:1029-1035 | a first line without quote or line break, whose pieces fit the field size limit, is read as the header of its comma-separated pieces (no field for an empty line), whatever follows, unless reading fails |
| Csv.RunExtends | todo.py:1051-1064 | rows the reader has returned are never changed by further input |
| CsvStore.HeaderLineWritten | todo.py:1095-1097 | `writeheader()` writes the five column names as an unquoted row |
| CsvStore.EncodeAsRows | todo.py:1092-1100 | the saved file is the header row followed by one row per task |
| CsvStore.Stored | todo.py:1052-1060 | a task as it is read back is complete and keeps its completion; a complete task is read back unchanged |
| CsvStore.RowOfRead | todo.py:1051-1060 | each written row is read back as the stored task: missing and `None` values as `''`, completed true iff the field is `True` |
| CsvStore.DecodeEncoded | todo.py:1028-1064 | the saved file is decoded as CSV into the stored tasks, in order |
| CsvStore.RoundTrip | todo.py:1015-1100 | loading the file `save` wrote gives back every task as stored, in order, and the load saves again |
| CsvStore.PlainFallback | todo.py:1034-1049 | a file whose first line has no quote, fits the field size limit and has no comma-separated piece `text` is read as plain text, one task per non-blank stripped line |
| CsvStore.TextMatch | todo.py:1158-1159 | the check succeeds exactly when `text` is a string, and then keeps the task iff its lower-cased text contains the query |
| CsvStore.Search | todo.py:1155-1159 | None (a raised error) exactly when a task has no string text; otherwise the list filtered by the match, so exactly the tasks whose lower-cased text contains the lower-cased query, in list order, each as often as in the list |
| CsvStore.SearchInOrder | todo.py:1155-1159 | searching a list split in two is searching each part in turn, so order and multiplicity are kept |
| CsvStore.SearchSingle | todo.py:1158-1159 | a single task is kept when its lower-cased text holds the lower-cased query, dropped otherwise, and makes the search raise when it has no string text |
| CsvStore.TodoManager.constructor | todo.py:1009-1013 | the new manager holds the loaded tasks, and the file as the load leaves it |
| CsvStore.TodoManager.Load | todo.py:1015-1090 | missing file: no tasks, saved; blank file: no tasks, file untouched; otherwise CSV with a `text` column or plain text, then saved |
| CsvStore.TodoManager.Save | todo.py:1092-1102 | the file becomes the header row and one row per task |
| CsvStore.TodoManager.Add | todo.py:1104-1117 | missing `text` raises and changes nothing; otherwise the task with defaults is appended, saved, and its index (the new last one) returned |
| CsvStore.TodoManager.Update | todo.py:1119-1131 | out of range gives false and changes nothing; in range, missing `text` raises and changes nothing, otherwise the merge is stored and saved |
| CsvStore.TodoManager.Delete | todo.py:1133-1139 | true exactly for an index in range, which loses exactly that task; otherwise false and nothing changes |
| CsvStore.TodoManager.ToggleCompleted | todo.py:1161-1167 | true exactly for an index in range, whose completion alone flips; otherwise false and nothing changes |
| CsvStore.TodoManager.Cleanup | todo.py:1169-1173 | the list becomes its open tasks in order and is saved |
| Ordering.SortBySorted | app/main.py:529-532 | the sort returns a permutation of its input ordered by the key |
| Ordering.SortByStable | app/main.py:529-532 | tasks with equal keys keep their relative order |
| Ordering.SortByIdempotent | app/main.py:529-532 | sorting a sorted list changes nothing |
| Ordering.FilterIdempotent | app/main.py:506-509 | filtering twice by the same condition is filtering once |
| Views.Rank | app/main.py:529-532 | ranks run 1..3; 1 iff the priority is `▲`, 3 iff it is `▼`, and everything else ranks as `►` |
| Views.DisplayOrderSpec | app/main.py:526-532 | the display order is a stable permutation: open before completed, and within each group ▲, ►, ▼ |
| Views.SortTodos | app/main.py:470-498 | a permutation of the list; an unknown key leaves the order; it fails only for the text sort with a `None` text |
| Views.PriorityOrder | app/main.py:475-478 | the priority sort orders ▲, ►, ▼, an unknown priority counting as ►, and is stable |
| Views.DeadlineOrder | app/main.py:480-486 | every dated task precedes every undated one, and dated tasks ascend by the deadline string |
| Views.TextOrder | app/main.py:488-490 | the text sort ascends by lower-cased text and is stable |
| Views.FilterTodos | app/main.py:500-511 | `open` keeps exactly the open tasks, `completed` exactly the completed ones, any other value all of them; only tasks of the list |
| Views.FilterTodosInOrder | app/main.py:506-509 | the filter keeps list order and multiplicity: a list split in two is filtered part by part, and a single task is kept or dropped whole by its status |
| Views.FilterSplit | app/main.py:506-509 | the open and the completed views together hold as many tasks as the list |
| Views.CountInCategory | app/main.py:987-990 | the count is the size of the category's selection, and zero exactly when no task is in the category |
| Views.LegacyRank | todo.py:447-452 | a known priority ranks one below its rank in the newer order; an unknown one has no rank |
| Views.LegacyOrder | todo.py:445-460 | the older sort raises exactly when two or more tasks are sorted and one has an unknown priority |
| Views.LegacyAgrees | todo.py:445-452 | where the older sort succeeds it returns what the newer priority sort returns |
| Categories.LoadedCategories | app/main.py:285-297 | the loaded list always holds `Allgemein`, put in front when the file lacks it; a missing file gives `[Allgemein]` |
| Categories.RoundTrip | app/main.py:285-305 | loading what `save_categories` wrote gives back the list, when it holds `Allgemein` and each name is one stripped line |
| Categories.AddCategory | app/main.py:897-909 | a blank name is refused, a present name is refused, and otherwise the stripped name joins the list |
| Categories.AddCategorySorted | app/main.py:897-903 | after adding, the list is sorted, holds the new name and every old one, and stays duplicate-free |
| Categories.RemovableCategories | app/main.py:937 | every category but `Allgemein` is offered for removal |
| Categories.RemoveFirst | app/main.py:954 | `list.remove` raises exactly when the name is absent, and otherwise drops one occurrence |
| Categories.RemoveFirstGone | app/main.py:954 | in a duplicate-free list the removed name is gone and every other name stays |
| Categories.Reassigned | app/main.py:950-951 | a task in the removed category moves to `Allgemein`; any other task is unchanged |
| Categories.ReassignAll | app/main.py:949-952 | every task is treated as `Reassigned` says, position by position |
| Categories.ReassignEmpties | app/main.py:949-954 | after reassignment no task is left in the removed category, and only its tasks changed |
| Categories.Coerced | app/main.py:326-329 | an empty, `None` or unknown category becomes `Allgemein`, a known one stays (a missing key reading as `Allgemein` stays missing when `Allgemein` is listed), only the category changes, and with `Allgemein` listed the task is then known |
| Settings.Lookup | app/main.py:89 | `d.get(k)` finds a value exactly when the key is present, and that entry is in the dictionary |
| Settings.Put | app/main.py:452-455 | after `d[k] = v` the key holds `v` and every other key is unchanged |
| Settings.PutKeys | app/main.py:452-455 | a present key keeps its place and a new key is appended |
| Settings.UpdateLookup | app/main.py:80 | after `d.update(e)` a key of `e` has its value from `e`, and every other key keeps its value from `d` |
| Settings.UpdateKeys | app/main.py:80 | `update` keeps every key of `d`, and keeps keys distinct |
| Settings.ParseSettings | app/main.py:78 | a parsed file gives distinct keys with string values |
| Settings.RoundTrip | app/main.py:394-412 | reading what `save_settings` wrote gives back every entry, in order, as the string it was written as |
| Settings.InitialSettingsWellFormed | app/main.py:61-97 | the theme is a known one, every default key is present exactly once, and a missing file gives the defaults at 300x700 with the dark theme |
| Settings.LoadSaved | app/main.py:76-80 | loading a saved file merges its entries over the defaults |
| Settings.SizeOf | app/main.py:83-86 | a size parses only from a string with exactly one comma |
| Settings.SizeRoundTrip | app/main.py:83-86 | a size written as `width,height` reads back as that size |
| Settings.ThemeOf | app/main.py:89 | a theme that is found is one of the known themes |
| Settings.Clamp | app/main.py:440-441 | the result is at least 0, at most the bound when the bound is non-negative, and the value itself when it is in range |
| Settings.Place | app/main.py:414-446 | it fails exactly for `custom` with a coordinate that is no integer; the position is a known one and is kept when known; a custom position lies within `[0, screen - window]` |
| Settings.UnknownFallsBack | app/main.py:442-446 | an unknown position name is placed and stored as `br` |
| Settings.CornersOnScreen | app/main.py:421-434 | on a screen with room, each corner keeps the window on screen, 10 pixels from the edges |
| Settings.Placed | app/main.py:451-455 | the position is stored; for `custom` the coordinates too; every other key is unchanged |
| Settings.CustomStable | app/main.py:434-455 | placing again from the stored custom coordinates gives the same placement |
| Settings.RestartKeepsPlacement | app/main.py:414-458 | after saving and reloading the settings, a custom placement comes back at the same spot |
| Settings.ReloadedCoordinate | app/main.py:436-437 | a stored coordinate reads back, through the file and `int()`, as the same number |
| Text.StripEmptyIffBlank | todo.py:1020-1021 | `strip()` gives the empty string exactly for whitespace-only text |
| Text.SplitPieces | app/todo_manager.py:22 | `split` gives pieces without the separator that join back to the string |
| Text.SplitJoin | app/todo_manager.py:22 | splitting joined separator-free pieces gives them back |
| Text.LinesConcat | app/todo_manager.py:20 | the lines of a file concatenate back to the file |
| Text.ContainsAt | app/todo_manager.py:92 | `q in s` holds exactly when `q` occurs in `s` at some position |
| Text.ParseIntToString | app/main.py:436-437 | `int(str(i)) == i` for every integer |
| Updater.CompareFrom | app/updater.py:60-69 | the loop returns -1, 0 or 1 |
| Updater.CompareVersions | app/updater.py:55-69 | a result exists exactly when both versions parse, and it is -1, 0 or 1 |
| Updater.CompareZeroIff | app/updater.py:60-69 | versions compare equal exactly when they agree part by part after padding with zeros |
| Updater.FirstDifference | app/updater.py:60-67 | the first differing part decides: lexicographic order on zero-padded parts |
| Updater.CompareReflexive | app/updater.py:60-69 | a version compares equal to itself |
| Updater.CompareAntisymmetric | app/updater.py:64-67 | swapping the arguments negates the result |
| Updater.TrailingZeros | app/updater.py:60-62 | trailing zero parts do not change a version (`1.0` equals `1.0.0`) |
| Updater.CompareTransitive | app/updater.py:60-67 | "newer than" is transitive |
| Updater.Latest | app/updater.py:19 | the tag with every `v` removed holds no `v` |
| Updater.UpdateOnlyWhenNewer | app/updater.py:14-29 | an update is offered exactly when the release is strictly newer and has an asset, and it then reports the release's version |
| Updater.SameVersionNoUpdate | app/updater.py:21-23 | a release of the running version is never offered |
| LegacyApp.PyIndex | todo.py:951 | a Python index in range maps to a position, counted from the end when negative |
| LegacyApp.TodoApp.constructor | todo.py:183-211 | the categories are loaded from their file, the manager holds the loaded tasks, and no drag is active |
| LegacyApp.TodoApp.NewManager | todo.py:208 | the new manager holds the loaded tasks |
| LegacyApp.TodoApp.LoadCategories | todo.py:870-881 | the list is the loaded one, which holds `Allgemein`; a missing file is not created |
| LegacyApp.TodoApp.SaveCategories | todo.py:862-868 | the file becomes the names joined by newlines |
| LegacyApp.TodoApp.SaveCategory | todo.py:779-790 | a refused name changes nothing; an accepted one yields the sorted, extended list, which is saved; `Allgemein` stays |
| LegacyApp.TodoApp.DeleteCategory | todo.py:821-834 | the result is `Ok(false)` exactly when the name or the confirmation is missing, and then nothing changes; any error raised is a `ValueError`; when every task of the category has text, they all move to `Allgemein` through `update` and the file is saved if any moved, even when `list.remove` then raises; the name leaves the list, which is saved, exactly when it was listed and no moved task lacked text |
| LegacyApp.TodoApp.MoveToGeneral | todo.py:827-831 | every task of the category moves to `Allgemein` and the file is saved if any moved; the first task without text makes `update` raise |
| LegacyApp.TodoApp.StartDrag | todo.py:883-905 | a second start during a drag changes nothing; otherwise the index and original category are captured |
| LegacyApp.TodoApp.EndDrag | todo.py:927-964 | with no drag nothing happens; only a drop on a different category updates the task in place and through `update`; an index out of range raises `IndexError` before the tasks or the file change; after a successful `update` the redraw by `show_all_todos` raises `TypeError` exactly when RefreshRaises holds of the new tasks, with the move already saved; the drag ends unless indexing, `update` or the redraw raises |
| LegacyApp.Group | todo.py:415-420 | the group of a key holds exactly the tasks filed under it (`get('category', 'Allgemein')`), each taken from the list |
| LegacyApp.SortRaisesAt | todo.py:442-452 | two tasks at different positions under one key, one with a priority other than ▲ ► ▼, make the older sort of that group raise |
| LegacyApp.SortRaisesWitness | todo.py:442-452 | when the older sort of a key's group raises, two tasks at different positions share that key and one has an unknown priority |
| LegacyApp.RefreshSortRaises | todo.py:415-452 | the per-group sorts of `show_all_todos` raise if and only if two tasks at different positions share a key and one of them has an unknown priority |
| LegacyApp.KeptName | todo.py:833 | removing one name keeps every other |
| App.TodoApp.constructor | app/main.py:19-59 | after settings, categories and tasks are loaded, the category list and every task's category are consistent, and no drag is active |
| App.TodoApp.SetupWindow | app/main.py:99-131 | the stored position name (`br` when none is stored) is applied as ApplyWindowPosition does it: a corner, or a `custom` position with integer coordinates, is stored and saved; an unknown name is stored and saved as `br`; a `custom` coordinate that is not an integer leaves the settings and their file unchanged |
| App.TodoApp.LoadInitialSettings | app/main.py:61-97 | settings, size and theme are those the settings file yields, and the theme is a known one |
| App.TodoApp.LoadCategories | app/main.py:285-297 | the list is the loaded one, which holds `Allgemein`; a missing file is created holding `Allgemein` |
| App.TodoApp.SaveCategories | app/main.py:299-305 | the file becomes the names joined by newlines |
| App.TodoApp.LoadTodos | app/main.py:307-329 | the tasks are reloaded and each one's category is coerced to a known one, in memory only |
| App.TodoApp.SaveCategory | app/main.py:897-909 | a refused name changes nothing; an accepted one yields the sorted, extended list, which is saved; consistency is kept |
| App.TodoApp.DeleteCategory | app/main.py:942-957 | nothing changes without a name or confirmation; otherwise the category's tasks move to `Allgemein`, and the name leaves the list exactly when it was listed; consistency is kept |
| App.TodoApp.MoveToGeneral | app/main.py:948-952 | every task of the category moves to `Allgemein`, and the file is saved if any moved |
| App.TodoApp.StartDrag | app/main.py:626-637 | the dragged index is recorded |
| App.TodoApp.FindDropzone | app/main.py:683-704 | a category under the pointer becomes the drop target; elsewhere the old one stays |
| App.TodoApp.DropTodo | app/main.py:706-715 | an index in range moves that task to the category and saves; any other index changes nothing |
| App.TodoApp.EndDrag | app/main.py:662-681 | the drop happens only with a target set, then target and drag are cleared; with no drag nothing happens; consistency is kept for a known target |
| App.TodoApp.ToggleTodoCompleted | app/main.py:858-881 | true exactly for an index in range, whose completion alone flips and is saved; otherwise nothing changes |
| App.TodoApp.SortTodos | app/main.py:470-498 | the list becomes the chosen sort and is saved; a sort that raises changes nothing |
| App.TodoApp.SaveSettings | app/main.py:394-412 | the entries are merged into the settings, which are written out |
| App.TodoApp.WriteSettings | app/main.py:394-412 | the settings are written out as they are |
| App.TodoApp.ApplyWindowPosition | app/main.py:414-461 | the placement is stored and the settings saved; a custom coordinate that is no integer changes nothing |
| App.KeptNames | app/main.py:954 | removing one name keeps every other |
| App.ReassignedKnown | app/main.py:942-957 | after a category's tasks move to `Allgemein` and it leaves the list, every task's category is still known |

## Left out

- Tk widgets, styles, dialogs, menus, hover effects and animations are not modelled. Of `show_all_todos` only the `TypeError` it can raise is modelled (LegacyApp.RefreshRaises), and only where it changes the state left behind, in LegacyApp.TodoApp.EndDrag. A dialog's answer is a parameter: the entered name, the confirmation, or the category under the pointer.
- Real file I/O is not modelled, and neither are I/O errors. A failed write would leave the file truncated, and the handlers would print an error; neither is modelled.
- Pixel hit-testing (`winfo_containing`, `bbox`, container geometry) is not modelled. The hit test's answer is an input.
- The network, JSON decoding, `download_and_install_update`, the registry, sound and the browser are not modelled.
- `_is_overdue` is not modelled, because it depends on the clock.
- Updater.CheckForUpdates: every failure of the release query, including a `KeyError` on a missing tag, is the `None` response. The write of `update_url` is not modelled.
- Updater.ParseVersion carries no contract of its own. Updater.CompareVersions states when it succeeds.
- Text.Lower: only ASCII and Latin-1 capitals are lower-cased.
- Text.ParseInt: `int()` is modelled on ASCII digits with an optional sign and surrounding whitespace. Underscores and non-ASCII digits are not accepted.
- PipeStore.TodoManager.Add and CsvStore.TodoManager.Add: `add` keeps the caller's dictionary, and `setdefault` mutates it. The model appends a value, so later changes through the caller's reference are not captured.
- App.TodoApp.DropTodo, App.TodoApp.ToggleTodoCompleted and LegacyApp.TodoApp.EndDrag: the source mutates the task dictionary in place before calling `update`. The model writes the changed task into the list, which has the same effect on the list.
- App.TodoApp.constructor: only consistency and the empty drag state are stated, not the loaded values. Those are stated by LoadInitialSettings, LoadCategories and LoadTodos. `setup_window` is the separate SetupWindow, because it needs the screen size.
- App.TodoApp.constructor: the styles, the GUI construction, and the update check at start-up are not modelled.
- LegacyApp.TodoApp.constructor: the second reading of the task file by `load_todos` (todo.py:335-338) is not modelled. It re-reads the file the first load just wrote, and CsvStore.RoundTrip states what that gives back. `center_window` is not modelled.
- LegacyApp.TodoApp.NewManager states only the loaded tasks, not the file the load leaves. CsvStore.TodoManager.constructor states the file.
- LegacyApp.TodoApp.MoveToGeneral: when `update` raises, its result states only the error. It does not state the tasks already moved.
- LegacyApp.TodoApp.DeleteCategory: when `update` raises on a task without text, only the error is stated, not the tasks already moved before it.
- LegacyApp.TodoApp.constructor: `load_todos` ends with `show_all_todos`, which raises `TypeError` when RefreshRaises holds of the loaded tasks and then stops `__init__`. The model always constructs the application.
- LegacyApp.TodoApp.SaveCategory and LegacyApp.TodoApp.DeleteCategory: the closing `show_all_todos` can raise `TypeError`. It runs after every change the model states, so only the reported outcome differs, not the state.
- Views.LegacyOrder: only the default key `priority` without `reverse` is modelled. No caller passes anything else.
- The `deadline` and generic keys of the older `_sort_by` (todo.py:453-460) are not modelled, because no caller uses them.
- Categories.AddCategory: `list.sort` is modelled as ordering by code points. That is how Python compares strings.
- Settings.Place: coordinates are unbounded integers, as in Python.
