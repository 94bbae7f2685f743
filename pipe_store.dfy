/** The task manager of the packaged application: tasks kept in memory as a
    list and stored one per line as `text|category|priority|deadline|completed`,
    with `completed` written as `1` or `0`. Every change rewrites the file.

    The file is a value: `None` when it does not exist, otherwise the text
    that Python's text layer reads and writes. */
module PipeStore {
  import opened Wrappers
  import opened Text
  import opened Records
  import opened Ordering
  import opened Queries

  /** How an f-string shows a dictionary value fetched with `get(key, default)`. */
  function Show(s: Slot, default: string): (r: string)
    ensures s.Val? ==> r == s.value
    ensures s.Absent? ==> r == default
  {
    match s
    case Absent => default
    case Null => "None"
    case Val(v) => v
  }

  /** The four string fields as `save` writes them, defaults filled in. */
  function Fields(t: Todo): seq<string> {
    [Show(t.text, ""), Show(t.category, General), Show(t.priority, Medium), Show(t.deadline, "")]
  }

  /** The five fields of a line: the four strings and `1` or `0`. */
  function Record(t: Todo): seq<string> {
    Fields(t) + [if IsCompleted(t) then "1" else "0"]
  }

  /** The line `save` writes for one task. */
  function EncodeLine(t: Todo): string {
    Join(Record(t), '|') + "\n"
  }

  /** The whole file `save` writes. */
  function Encode(ts: seq<Todo>): string {
    ConcatMap(ts, EncodeLine)
  }

  /** One line read back: blank lines and lines with fewer than five
      `|`-separated fields give nothing; otherwise the first five fields make
      a task, completed exactly when the fifth is `1`. */
  function DecodeLine(line: string): (r: Option<Todo>)
    ensures r.Some? <==> Strip(line) != [] && |Split(Strip(line), '|')| >= 5
    ensures r.Some? ==> Complete(r.value)
    ensures r.Some? ==> var parts := Split(Strip(line), '|');
      r.value.text == Val(parts[0]) && r.value.category == Val(parts[1])
      && r.value.priority == Val(parts[2]) && r.value.deadline == Val(parts[3])
      && (IsCompleted(r.value) <==> parts[4] == "1")
  {
    var stripped := Strip(line);
    if stripped == [] then None
    else
      var parts := Split(stripped, '|');
      if |parts| >= 5 then
        Some(Todo(Val(parts[0]), Val(parts[1]), Val(parts[2]), Val(parts[3]), Some(parts[4] == "1")))
      else None
  }

  /** The tasks read from a sequence of lines, in file order. */
  function DecodeLines(lines: seq<string>): seq<Todo> {
    Collect(lines, DecodeLine)
  }

  /** What `load` reads from an existing file. */
  function Decode(text: string): seq<Todo> {
    DecodeLines(Lines(UniversalNewlines(text)))
  }

  /** A field `save` can write without changing how the line splits. */
  predicate Clean(f: string) {
    '|' !in f && '\n' !in f && '\r' !in f
  }

  /** A task `save` can write so that `load` reads back what was meant: no
      field holds a separator or a line break, and the text does not start
      with whitespace (which `strip` would remove). */
  predicate Storable(t: Todo) {
    Clean(Show(t.text, "")) && Clean(Show(t.category, General)) && Clean(Show(t.priority, Medium))
    && Clean(Show(t.deadline, ""))
    && (Show(t.text, "") == [] || !IsSpace(Show(t.text, "")[0]))
  }

  lemma RecordClean(t: Todo)
    requires Storable(t)
    ensures |Record(t)| == 5
    ensures forall k :: 0 <= k < 5 ==> Clean(Record(t)[k])
  {
    var r := Record(t);
    assert r[0] == Show(t.text, "") && r[1] == Show(t.category, General);
    assert r[2] == Show(t.priority, Medium) && r[3] == Show(t.deadline, "");
  }

  /** The task as `load` gives it back: every field a string, defaults filled
      in, Python's `None` shown as the string "None". */
  function Stored(t: Todo): (r: Todo)
    ensures Complete(r) && IsCompleted(r) == IsCompleted(t)
    ensures Complete(t) ==> r == t
  {
    Todo(Val(Show(t.text, "")), Val(Show(t.category, General)), Val(Show(t.priority, Medium)),
         Val(Show(t.deadline, "")), Some(IsCompleted(t)))
  }

  lemma DecodeEncodeLine(t: Todo)
    requires Storable(t)
    ensures DecodeLine(Join(Record(t), '|') + "\n") == Some(Stored(t))
  {
    var parts := Record(t);
    var joined := Join(parts, '|');
    RecordClean(t);
    SplitJoin(parts, '|');
    JoinFive(parts);
    StripNewlineTerminated(joined);
    assert Strip(joined + "\n") == joined;
    assert Split(joined, '|') == parts;
  }

  /** The joined fields start with the text (or the separator) and end with
      the completion digit. */
  lemma JoinFive(parts: seq<string>)
    requires |parts| == 5 && (parts[4] == "1" || parts[4] == "0")
    requires parts[0] == [] || !IsSpace(parts[0][0])
    ensures var j := Join(parts, '|');
      j != [] && !IsSpace(j[0]) && !IsSpace(j[|j| - 1])
  {
    var rest := Join(parts[1..], '|');
    assert Join(parts, '|') == parts[0] + ['|'] + rest;
    assert Join(parts[1..], '|') == parts[1] + ['|'] + Join(parts[2..], '|');
    assert Join(parts[2..], '|') == parts[2] + ['|'] + Join(parts[3..], '|');
    assert Join(parts[3..], '|') == parts[3] + ['|'] + Join(parts[4..], '|');
    assert Join(parts[4..], '|') == parts[4];
  }

  /** Round trip: loading the file that `save` wrote gives back the list,
      each task as `Stored` describes it. */
  lemma {:induction false} RoundTrip(ts: seq<Todo>)
    requires forall i :: 0 <= i < |ts| ==> Storable(ts[i])
    ensures Decode(Encode(ts)) == seq(|ts|, i requires 0 <= i < |ts| => Stored(ts[i]))
  {
    NoCarriageReturn(ts);
    DecodeEncode(ts);
  }

  lemma {:induction false} NoCarriageReturn(ts: seq<Todo>)
    requires forall i :: 0 <= i < |ts| ==> Storable(ts[i])
    ensures '\r' !in Encode(ts)
  {
    if ts != [] {
      NoCarriageReturn(ts[1..]);
      var t := ts[0];
      RecordClean(t);
      JoinFree(Record(t), '|', '\r');
    }
  }

  lemma {:induction false} NoNewline(t: Todo)
    requires Storable(t)
    ensures '\n' !in Join(Record(t), '|')
  {
    RecordClean(t);
    JoinFree(Record(t), '|', '\n');
  }

  /** A character in none of the pieces and not the separator is not in the
      joined string. */
  lemma {:induction false} JoinFree(parts: seq<string>, sep: char, c: char)
    requires c != sep && forall k :: 0 <= k < |parts| ==> c !in parts[k]
    ensures c !in Join(parts, sep)
  {
    if |parts| > 1 {
      JoinFree(parts[1..], sep, c);
    }
  }

  lemma {:induction false} DecodeEncode(ts: seq<Todo>)
    requires forall i :: 0 <= i < |ts| ==> Storable(ts[i])
    ensures DecodeLines(Lines(Encode(ts))) == seq(|ts|, i requires 0 <= i < |ts| => Stored(ts[i]))
  {
    if ts != [] {
      DecodeEncodeHead(ts);
      DecodeEncode(ts[1..]);
      StoredCons(ts);
    }
  }

  lemma StoredCons(ts: seq<Todo>)
    requires ts != []
    ensures seq(|ts|, i requires 0 <= i < |ts| => Stored(ts[i]))
         == [Stored(ts[0])] + seq(|ts[1..]|, i requires 0 <= i < |ts[1..]| => Stored(ts[1..][i]))
  {
  }

  /** The first line of the written file reads back as the first task. */
  lemma DecodeEncodeHead(ts: seq<Todo>)
    requires ts != [] && Storable(ts[0])
    ensures DecodeLines(Lines(Encode(ts))) == [Stored(ts[0])] + DecodeLines(Lines(Encode(ts[1..])))
  {
    var t := ts[0];
    var joined := Join(Record(t), '|');
    NoNewline(t);
    assert Encode(ts) == joined + "\n" + Encode(ts[1..]);
    LinesPrefix(joined, Encode(ts[1..]));
    DecodeEncodeLine(t);
    var lines := Lines(Encode(ts));
    assert lines[0] == joined + "\n" && lines[1..] == Lines(Encode(ts[1..]));
    assert DecodeLines(lines) == [Stored(t)] + DecodeLines(lines[1..]);
  }

  /** Whether `search` keeps one task: `query in text.lower() or query in
      category.lower()`, where either value missing counts as ''. None when
      a value that is evaluated is Python's `None` (`None.lower()` raises). */
  function SearchMatch(t: Todo, query: string): (r: Option<bool>)
    ensures r == Some(true) <==>
      (!t.text.Null? && (Contains(Lower(Show(t.text, "")), query) || (!t.category.Null? && Contains(Lower(Show(t.category, "")), query))))
    ensures r.None? <==> t.text.Null? || (t.category.Null? && !Contains(Lower(Show(t.text, "")), query))
  {
    match Get(t.text, "")
    case None => None
    case Some(text) =>
      if Contains(Lower(text), query) then Some(true)
      else
        match Get(t.category, "")
        case None => None
        case Some(category) => Some(Contains(Lower(category), query))
  }

  /** The condition of the `search` comprehension, as a function value. */
  function Matcher(query: string): Todo -> Option<bool> {
    t => SearchMatch(t, Lower(query))
  }

  /** `search(query)`: the tasks whose lower-cased text or category holds the
      lower-cased query, in list order; None when the comprehension raises. */
  function Search(ts: seq<Todo>, query: string): (r: Option<seq<Todo>>)
    ensures r.Some? <==> forall i :: 0 <= i < |ts| ==> SearchMatch(ts[i], Lower(query)).Some?
    ensures r.Some? ==> forall i :: 0 <= i < |r.value| ==> r.value[i] in ts && SearchMatch(r.value[i], Lower(query)) == Some(true)
    ensures r.Some? ==> forall i :: 0 <= i < |ts| ==> (ts[i] in r.value <==> SearchMatch(ts[i], Lower(query)) == Some(true))
    ensures r.Some? ==> r.value == Filter(ts, Holds(Matcher(query)))
  {
    var r := TryFilter(ts, Matcher(query));
    if r.Some? then TryFilterIsFilter(ts, Matcher(query)); r else r
  }

  /** The search keeps list order and multiplicity: searching a list split
      in two is searching each part in turn. */
  lemma SearchInOrder(a: seq<Todo>, b: seq<Todo>, query: string)
    requires Search(a + b, query).Some?
    ensures Search(a, query).Some? && Search(b, query).Some?
    ensures Search(a + b, query).value == Search(a, query).value + Search(b, query).value
  {
    assert forall i :: 0 <= i < |a| ==> a[i] == (a + b)[i];
    assert forall i :: 0 <= i < |b| ==> b[i] == (a + b)[|a| + i];
    FilterConcat(a, b, Holds(Matcher(query)));
  }

  /** A single task is kept, dropped or makes the search raise, whole. */
  lemma SearchSingle(t: Todo, query: string)
    ensures Search([t], query) ==
      match SearchMatch(t, Lower(query))
      case None => None
      case Some(hit) => Some(if hit then [t] else [])
  {
    FilterSingle(t, Holds(Matcher(query)));
  }

  /** The manager: the list of tasks and the file it is stored in. */
  class TodoManager {
    var todos: seq<Todo>
    var file: Option<string>

    /** `__init__` loads the file at once. */
    constructor(disk: Option<string>)
      ensures todos == (if disk.None? then [] else Decode(disk.value))
      ensures file == (if disk.None? then Some("") else disk)
    {
      todos := [];
      file := disk;
      new;
      Load();
    }

    /** `load`: read every line; a missing file reads as no tasks and is
        created empty. */
    method Load()
      modifies this
      ensures todos == (if old(file).None? then [] else Decode(old(file).value))
      ensures file == (if old(file).None? then Some("") else old(file))
    {
      todos := [];
      if file.None? {
        file := Some("");
        return;
      }
      var lines := Lines(UniversalNewlines(file.value));
      var i := 0;
      while i < |lines|
        invariant 0 <= i <= |lines|
        invariant todos == DecodeLines(lines[..i])
        invariant file == old(file)
      {
        CollectStep(lines, i, DecodeLine);
        var decoded := DecodeLine(lines[i]);
        if decoded.Some? {
          todos := todos + [decoded.value];
        }
        i := i + 1;
      }
      assert lines[..i] == lines;
    }

    /** `save`: write one line per task. */
    method Save()
      modifies this`file
      ensures file == Some(Encode(todos))
    {
      var out := "";
      var i := 0;
      while i < |todos|
        invariant 0 <= i <= |todos|
        invariant out == Encode(todos[..i])
      {
        ConcatMapStep(todos, i, EncodeLine);
        out := out + EncodeLine(todos[i]);
        i := i + 1;
      }
      assert todos[..i] == todos;
      file := Some(out);
    }

    /** `add`: append and save. */
    method Add(t: Todo)
      modifies this
      ensures todos == old(todos) + [t]
      ensures file == Some(Encode(todos))
    {
      todos := todos + [t];
      Save();
    }

    /** `update`: an index in range has its task replaced as a whole (no
        merge); any other index changes nothing. */
    method Update(index: int, t: Todo)
      modifies this
      ensures 0 <= index < |old(todos)| ==> todos == old(todos)[index := t] && file == Some(Encode(todos))
      ensures !(0 <= index < |old(todos)|) ==> todos == old(todos) && file == old(file)
    {
      if 0 <= index < |todos| {
        todos := todos[index := t];
        Save();
      }
    }

    /** `delete`: an index in range loses exactly that task, the later ones
        moving down by one; any other index changes nothing. */
    method Delete(index: int)
      modifies this
      ensures 0 <= index < |old(todos)| ==> todos == old(todos)[..index] + old(todos)[index + 1..] && file == Some(Encode(todos))
      ensures !(0 <= index < |old(todos)|) ==> todos == old(todos) && file == old(file)
    {
      if 0 <= index < |todos| {
        todos := todos[..index] + todos[index + 1..];
        Save();
      }
    }

    /** `toggle_completed`: flip one task's completion, leaving every other
        task and field as it was. */
    method ToggleCompleted(index: int)
      modifies this
      ensures 0 <= index < |old(todos)| ==> todos == old(todos)[index := Toggled(old(todos)[index])] && file == Some(Encode(todos))
      ensures !(0 <= index < |old(todos)|) ==> todos == old(todos) && file == old(file)
    {
      if 0 <= index < |todos| {
        todos := todos[index := Toggled(todos[index])];
        Save();
      }
    }

    /** `cleanup`: keep the open tasks, in order, and save. */
    method Cleanup()
      modifies this
      ensures todos == Filter(old(todos), IsOpen)
      ensures forall i :: 0 <= i < |todos| ==> !IsCompleted(todos[i])
      ensures file == Some(Encode(todos))
    {
      todos := Filter(todos, IsOpen);
      Save();
    }

    /** `save_todos`: replace the whole list and save. */
    method SaveTodos(ts: seq<Todo>)
      modifies this
      ensures todos == ts && file == Some(Encode(ts))
    {
      todos := ts;
      Save();
    }
  }
}
