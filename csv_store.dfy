/** The task manager of the single-file application: tasks kept in memory as
    a list and stored as CSV with the header
    `text,category,priority,deadline,completed`, written by `csv.DictWriter`
    and read by `csv.DictReader`. A file that is not CSV with a `text`
    column is read as plain text, one task per non-blank line, and rewritten
    as CSV.

    The file is a value: `None` when it does not exist, otherwise its text
    as stored (reading applies the universal-newline translation). */
module CsvStore {
  import opened Wrappers
  import opened Text
  import opened Records
  import opened Ordering
  import opened Queries
  import Csv

  /** The error `add` and `update` raise for a task without a `text` key
      (`ValueError`). */
  datatype Failure = MissingText

  // -------------------------------------------------------------- writing

  /** How `DictWriter` writes a string key: a missing key as the empty
      `restval`, Python's `None` as the empty field. */
  function Cell(s: Slot): string {
    if s.Val? then s.value else ""
  }

  /** How `DictWriter` writes `completed`: `str(True)`/`str(False)`, or
      the empty field when the key is missing. */
  function CompletedCell(c: Option<bool>): string {
    match c
    case None => ""
    case Some(b) => if b then "True" else "False"
  }

  const Header: seq<string> := ["text", "category", "priority", "deadline", "completed"]

  /** The row `writerow(todo)` writes, in header order. */
  function RowOf(t: Todo): seq<string> {
    [Cell(t.text), Cell(t.category), Cell(t.priority), Cell(t.deadline), CompletedCell(t.completed)]
  }

  function EncodeTodo(t: Todo): string {
    Csv.EncodeRow(RowOf(t))
  }

  /** `writeheader()`: the column names joined by commas, none of them
      needing quotes. */
  function HeaderLine(): string {
    "text" + "," + ("category" + "," + ("priority" + "," + ("deadline" + "," + "completed"))) + "\r\n"
  }

  /** The header line is the header row as the writer writes it. */
  lemma HeaderLineWritten()
    ensures HeaderLine() == Csv.EncodeRow(Header)
  {
    var c, d, p, g := "completed", "deadline", "priority", "category";
    Csv.LettersUnquoted(c);
    Csv.LettersUnquoted(d);
    Csv.LettersUnquoted(p);
    Csv.LettersUnquoted(g);
    Csv.LettersUnquoted("text");
    assert [d, c][1..] == [c];
    assert [p, d, c][1..] == [d, c];
    assert [g, p, d, c][1..] == [p, d, c];
    assert Header[1..] == [g, p, d, c];
  }

  /** What `save` writes: the header row, then one row per task. */
  function Encode(ts: seq<Todo>): string {
    HeaderLine() + ConcatMap(ts, EncodeTodo)
  }

  /** Writing one more task appends its row. */
  lemma EncodeStep(ts: seq<Todo>, i: nat)
    requires i < |ts|
    ensures Encode(ts[..i + 1]) == Encode(ts[..i]) + EncodeTodo(ts[i])
  {
    ConcatMapStep(ts, i, EncodeTodo);
  }

  // -------------------------------------------------------------- reading

  /** The position of the last column named `key`, or -1: the column whose
      value `dict(zip(fieldnames, row))` keeps. */
  function LastIndex(h: seq<string>, key: string): (j: int)
    ensures -1 <= j < |h|
    ensures j >= 0 ==> h[j] == key
    ensures forall k :: j < k < |h| ==> h[k] != key
    ensures j == -1 <==> key !in h
  {
    if h == [] then -1
    else if h[|h| - 1] == key then |h| - 1
    else
      var j := LastIndex(h[..|h| - 1], key);
      assert forall k :: 0 <= k < |h| - 1 ==> h[..|h| - 1][k] == h[k];
      assert key in h ==> key in h[..|h| - 1] by {
        if key in h {
          var k :| 0 <= k < |h| && h[k] == key;
          assert h[..|h| - 1][k] == key;
        }
      }
      j
  }

  /** `row[key]` of the dictionary `DictReader` builds from a row: Absent
      when no column has that name; Python's `None` (the `restval`) when
      some column of that name lies beyond the row's end; otherwise the
      row's value in the last column of that name. */
  function Lookup(h: seq<string>, row: seq<string>, key: string): (r: Slot)
    ensures r.Absent? <==> key !in h
    ensures r.Null? <==> exists k :: 0 <= k < |h| && |row| <= k && h[k] == key
    ensures r.Val? ==> exists k :: 0 <= k < |h| && k < |row| && h[k] == key && r.value == row[k]
                                   && forall m :: k < m < |h| ==> h[m] != key
  {
    var j := LastIndex(h, key);
    if j < 0 then Absent else if |row| <= j then Null else Val(row[j])
  }

  /** `row.get(key, default)` */
  function Or(s: Slot, default: string): Slot {
    if s.Absent? then Val(default) else s
  }

  /** The task `load` builds from one data row. */
  function RowTodo(h: seq<string>, row: seq<string>): Todo {
    Todo(Lookup(h, row, "text"),
         Or(Lookup(h, row, "category"), General),
         Or(Lookup(h, row, "priority"), Medium),
         Or(Lookup(h, row, "deadline"), ""),
         Some(Or(Lookup(h, row, "completed"), "False") == Val("True")))
  }

  /** `DictReader` skips blank rows. */
  function RowEntry(h: seq<string>, row: seq<string>): Option<Todo> {
    if row == [] then None else Some(RowTodo(h, row))
  }

  function RowReader(h: seq<string>): seq<string> -> Option<Todo> {
    row => RowEntry(h, row)
  }

  /** The tasks of the data rows under header `h`. */
  function DecodeRows(h: seq<string>, rows: seq<seq<string>>): seq<Todo> {
    Collect(rows, RowReader(h))
  }

  /** A plain-text line: a task with the stripped line as its text, unless
      it is blank. */
  function PlainLine(line: string): Option<Todo> {
    var text := Strip(line);
    if text == [] then None else Some(PlainTodo(text))
  }

  /** The plain-text reading of a file: one task per non-blank line. */
  function Plain(text: string): seq<Todo> {
    Collect(Lines(text), PlainLine)
  }

  /** `reader.fieldnames` is a non-empty header with a `text` column. */
  predicate HasHeader(rows: seq<seq<string>>) {
    rows != [] && rows[0] != [] && "text" in rows[0]
  }

  /** What `load` reads from a text that is not blank: CSV when it parses
      and has a `text` column, otherwise plain text (a `csv.Error`
      anywhere discards the rows read so far). */
  function Decode(text: string): seq<Todo> {
    var read := Csv.Read(text);
    if read.Some? && HasHeader(read.value) then DecodeRows(read.value[0], read.value[1..])
    else Plain(text)
  }

  /** The tasks `load` ends with, for a file that is missing (None) or
      holds `disk`. */
  function Loaded(disk: Option<string>): seq<Todo> {
    if disk.None? then []
    else
      var text := UniversalNewlines(disk.value);
      if Strip(text) == [] then [] else Decode(text)
  }

  /** Whether `load` saves afterwards: it returns early, without saving,
      only for an existing file that is blank. */
  predicate SavesOnLoad(disk: Option<string>) {
    disk.None? || Strip(UniversalNewlines(disk.value)) != []
  }

  /** The file as `load` leaves it. */
  function LoadedFile(disk: Option<string>): Option<string> {
    if SavesOnLoad(disk) then Some(Encode(Loaded(disk))) else disk
  }

  // ------------------------------------------------------------ round trip

  /** A task whose values `save` writes so that `load` reads them back: no
      carriage return (the text layer would turn it into "\n") and no field
      beyond the reader's size limit. */
  predicate Storable(t: Todo) {
    Csv.Writable(Cell(t.text)) && Csv.Writable(Cell(t.category))
    && Csv.Writable(Cell(t.priority)) && Csv.Writable(Cell(t.deadline))
  }

  /** The task as `load` gives it back: missing keys and Python's `None`
      read as the empty string, `completed` as a boolean. */
  function Stored(t: Todo): (r: Todo)
    ensures Complete(r) && IsCompleted(r) == IsCompleted(t)
    ensures Complete(t) && t.completed.Some? ==> r == t
    ensures r.text == Val(Cell(t.text))
  {
    Todo(Val(Cell(t.text)), Val(Cell(t.category)), Val(Cell(t.priority)), Val(Cell(t.deadline)),
         Some(IsCompleted(t)))
  }

  /** The rows `save` writes after the header. */
  function Rows(ts: seq<Todo>): seq<seq<string>> {
    seq(|ts|, i requires 0 <= i < |ts| => RowOf(ts[i]))
  }

  lemma {:induction false} TodoRows(ts: seq<Todo>)
    ensures ConcatMap(ts, EncodeTodo) == Csv.EncodeRows(Rows(ts))
  {
    if ts != [] {
      assert Rows(ts)[1..] == Rows(ts[1..]);
      TodoRows(ts[1..]);
    }
  }

  /** The file `save` writes, as the header row and the task rows. */
  lemma EncodeAsRows(ts: seq<Todo>)
    ensures Encode(ts) == Csv.EncodeRows([Header] + Rows(ts))
  {
    TodoRows(ts);
    HeaderLineWritten();
    assert ([Header] + Rows(ts))[1..] == Rows(ts);
  }

  /** The written file starts with the header's first letter. */
  lemma EncodeStart(ts: seq<Todo>)
    ensures UniversalNewlines(Encode(ts)) != [] && UniversalNewlines(Encode(ts))[0] == 't'
  {
    var e := Encode(ts);
    assert e[0] == 't';
    assert UniversalNewlines(e) == [e[0]] + UniversalNewlines(e[1..]);
  }

  /** Each written row is read back as the stored task. */
  lemma RowOfRead(t: Todo)
    ensures RowEntry(Header, RowOf(t)) == Some(Stored(t))
  {
    var row := RowOf(t);
    assert forall k :: 0 <= k < 5 ==> (Header[k] == "text" <==> k == 0);
    assert forall k :: 0 <= k < 5 ==> (Header[k] == "category" <==> k == 1);
    assert forall k :: 0 <= k < 5 ==> (Header[k] == "priority" <==> k == 2);
    assert forall k :: 0 <= k < 5 ==> (Header[k] == "deadline" <==> k == 3);
    assert forall k :: 0 <= k < 5 ==> (Header[k] == "completed" <==> k == 4);
    assert Header[0] == "text" && Header[1] == "category" && Header[2] == "priority";
    assert Header[3] == "deadline" && Header[4] == "completed";
  }

  lemma DecodeRowsStored(ts: seq<Todo>)
    ensures DecodeRows(Header, Rows(ts)) == seq(|ts|, i requires 0 <= i < |ts| => Stored(ts[i]))
  {
    var rows := Rows(ts);
    forall i | 0 <= i < |ts|
      ensures RowReader(Header)(rows[i]) == Some(Stored(ts[i]))
    {
      RowOfRead(ts[i]);
    }
    CollectAllSome(rows, RowReader(Header));
  }

  lemma RowsWritable(ts: seq<Todo>)
    requires forall i :: 0 <= i < |ts| ==> Storable(ts[i])
    ensures forall i :: 0 <= i < |[Header] + Rows(ts)| ==> Csv.RowWritable(([Header] + Rows(ts))[i])
  {
    var rows := [Header] + Rows(ts);
    forall i | 0 <= i < |rows|
      ensures Csv.RowWritable(rows[i])
    {
      if i > 0 {
        assert rows[i] == RowOf(ts[i - 1]);
      }
    }
  }

  /** The reader gives back the header row and every task row. */
  lemma ReadEncoded(ts: seq<Todo>)
    requires forall i :: 0 <= i < |ts| ==> Storable(ts[i])
    ensures Csv.Read(UniversalNewlines(Encode(ts))) == Some([Header] + Rows(ts))
  {
    RowsWritable(ts);
    EncodeAsRows(ts);
    Csv.RoundTrip([Header] + Rows(ts));
  }

  lemma DecodeEncoded(ts: seq<Todo>)
    requires forall i :: 0 <= i < |ts| ==> Storable(ts[i])
    ensures Decode(UniversalNewlines(Encode(ts))) == seq(|ts|, i requires 0 <= i < |ts| => Stored(ts[i]))
  {
    var rows := [Header] + Rows(ts);
    ReadEncoded(ts);
    assert HasHeader(rows) by {
      assert rows[0] == Header && Header[0] == "text";
    }
    assert rows[1..] == Rows(ts);
    DecodeRowsStored(ts);
  }

  /** Round trip: loading the file that `save` wrote gives back every task,
      as `Stored` describes it, in order, and saves it again. */
  lemma RoundTrip(ts: seq<Todo>)
    requires forall i :: 0 <= i < |ts| ==> Storable(ts[i])
    ensures Loaded(Some(Encode(ts))) == seq(|ts|, i requires 0 <= i < |ts| => Stored(ts[i]))
    ensures SavesOnLoad(Some(Encode(ts)))
  {
    var text := UniversalNewlines(Encode(ts));
    EncodeStart(ts);
    StripEmptyIffBlank(text);
    DecodeEncoded(ts);
  }

  /** A file in the older plain format, one task per line, is read as plain
      text: when its first line holds no quote or line break, fits the field
      size limit and none of its comma-separated pieces is `text`, the reader
      finds no `text` column. */
  lemma PlainFallback(first: string, rest: string)
    requires Csv.PlainLine(first) && "text" !in Split(first, ',')
    ensures Decode(first + "\n" + rest) == Plain(first + "\n" + rest)
  {
    Csv.FirstRecord(first, rest);
  }

  // ---------------------------------------------------------------- search

  /** Whether `search` keeps one task: `query in todo['text'].lower()`.
      None when that raises: the key is missing (`KeyError`) or holds
      Python's `None`. */
  function TextMatch(t: Todo, query: string): (r: Option<bool>)
    ensures r.Some? <==> t.text.Val?
    ensures r.Some? ==> (r.value <==> Contains(Lower(t.text.value), query))
  {
    if t.text.Val? then Some(Contains(Lower(t.text.value), query)) else None
  }

  /** The condition of the `search` comprehension, as a function value. */
  function Matcher(query: string): Todo -> Option<bool> {
    t => TextMatch(t, Lower(query))
  }

  /** `search(query)`: the tasks whose lower-cased text holds the
      lower-cased query, in list order; None when the comprehension raises. */
  function Search(ts: seq<Todo>, query: string): (r: Option<seq<Todo>>)
    ensures r.Some? <==> forall i :: 0 <= i < |ts| ==> ts[i].text.Val?
    ensures r.Some? ==> forall i :: 0 <= i < |ts| ==>
      (ts[i] in r.value <==> Contains(Lower(ts[i].text.value), Lower(query)))
    ensures r.Some? ==> forall i :: 0 <= i < |r.value| ==> r.value[i] in ts
    ensures r.Some? ==> r.value == Filter(ts, Holds(Matcher(query)))
  {
    var r := TryFilter(ts, Matcher(query));
    assert forall i :: 0 <= i < |ts| ==> Matcher(query)(ts[i]) == TextMatch(ts[i], Lower(query));
    if r.Some? then TryFilterIsFilter(ts, Matcher(query)); r else r
  }

  /** The search keeps list order and multiplicity: searching a list split
      in two is searching each part in turn. */
  lemma SearchInOrder(a: seq<Todo>, b: seq<Todo>, query: string)
    requires Search(a + b, query).Some?
    ensures Search(a, query).Some? && Search(b, query).Some?
    ensures Search(a + b, query).value == Search(a, query).value + Search(b, query).value
  {
    assert forall i :: 0 <= i < |a| ==> a[i] == (a + b)[i];
    assert forall i :: 0 <= i < |b| ==> b[i] == (a + b)[|a| + i];
    FilterConcat(a, b, Holds(Matcher(query)));
  }

  /** A single task is kept, dropped or makes the search raise, whole. */
  lemma SearchSingle(t: Todo, query: string)
    ensures Search([t], query) ==
      if !t.text.Val? then None
      else Some(if Contains(Lower(t.text.value), Lower(query)) then [t] else [])
  {
    FilterSingle(t, Holds(Matcher(query)));
  }

  // ---------------------------------------------------------------- manager

  /** The manager: the list of tasks and the file it is stored in. */
  class TodoManager {
    var todos: seq<Todo>
    var file: Option<string>

    /** `__init__` loads the file at once. */
    constructor(disk: Option<string>)
      ensures todos == Loaded(disk)
      ensures file == LoadedFile(disk)
    {
      todos := [];
      file := disk;
      new;
      Load();
    }

    /** `load`: a missing file gives no tasks; a blank file gives no tasks
        and is left as it is; any other file is read as CSV or as plain
        text. Except for a blank file, the result is saved as CSV. */
    method Load()
      modifies this
      ensures todos == Loaded(old(file))
      ensures file == (if SavesOnLoad(old(file)) then Some(Encode(todos)) else old(file))
    {
      todos := [];
      if file.Some? {
        var text := UniversalNewlines(file.value);
        if Strip(text) == [] {
          return;
        }
        var read := Csv.Read(text);
        if read.Some? && HasHeader(read.value) {
          var header := read.value[0];
          var rows := read.value[1..];
          var i := 0;
          while i < |rows|
            invariant 0 <= i <= |rows|
            invariant todos == DecodeRows(header, rows[..i])
            invariant file == old(file)
          {
            CollectStep(rows, i, RowReader(header));
            var entry := RowEntry(header, rows[i]);
            if entry.Some? {
              todos := todos + [entry.value];
            }
            i := i + 1;
          }
          assert rows[..i] == rows;
        } else {
          var lines := Lines(text);
          var i := 0;
          while i < |lines|
            invariant 0 <= i <= |lines|
            invariant todos == Collect(lines[..i], PlainLine)
            invariant file == old(file)
          {
            CollectStep(lines, i, PlainLine);
            var entry := PlainLine(lines[i]);
            if entry.Some? {
              todos := todos + [entry.value];
            }
            i := i + 1;
          }
          assert lines[..i] == lines;
        }
      }
      Save();
    }

    /** `save`: the header row, then one row per task. */
    method Save()
      modifies this`file
      ensures file == Some(Encode(todos))
    {
      var out := HeaderLine();
      var i := 0;
      assert out == Encode(todos[..0]);
      while i < |todos|
        invariant 0 <= i <= |todos|
        invariant out == Encode(todos[..i])
      {
        EncodeStep(todos, i);
        out := out + EncodeTodo(todos[i]);
        i := i + 1;
      }
      assert todos[..i] == todos;
      file := Some(out);
    }

    /** `add`: a task without `text` is refused; otherwise the missing keys
        get their defaults, the task is appended and saved, and its index
        returned. */
    method Add(t: Todo) returns (r: Result<nat, Failure>)
      modifies this
      ensures t.text.Absent? ==> r == Err(MissingText) && todos == old(todos) && file == old(file)
      ensures !t.text.Absent? ==> r == Ok(|old(todos)|) && todos == old(todos) + [WithDefaults(t)]
                                  && file == Some(Encode(todos))
      ensures r.Ok? ==> r.value < |todos| && todos[r.value] == WithDefaults(t)
    {
      if t.text.Absent? {
        return Err(MissingText);
      }
      todos := todos + [WithDefaults(t)];
      Save();
      r := Ok(|todos| - 1);
    }

    /** `update`: an index out of range changes nothing and gives false;
        in range, a task without `text` is refused, and otherwise its keys
        are merged into the stored task, which is saved. */
    method Update(index: int, t: Todo) returns (r: Result<bool, Failure>)
      modifies this
      ensures !(0 <= index < |old(todos)|) ==> r == Ok(false) && todos == old(todos) && file == old(file)
      ensures 0 <= index < |old(todos)| && t.text.Absent? ==> r == Err(MissingText) && todos == old(todos) && file == old(file)
      ensures 0 <= index < |old(todos)| && !t.text.Absent? ==>
        r == Ok(true) && todos == old(todos)[index := Merge(old(todos)[index], t)] && file == Some(Encode(todos))
    {
      if 0 <= index < |todos| {
        if t.text.Absent? {
          return Err(MissingText);
        }
        todos := todos[index := Merge(todos[index], t)];
        Save();
        return Ok(true);
      }
      return Ok(false);
    }

    /** `delete`: an index in range loses exactly that task, the later ones
        moving down by one, and gives true; any other index gives false. */
    method Delete(index: int) returns (r: bool)
      modifies this
      ensures r <==> 0 <= index < |old(todos)|
      ensures r ==> todos == old(todos)[..index] + old(todos)[index + 1..] && file == Some(Encode(todos))
      ensures !r ==> todos == old(todos) && file == old(file)
    {
      if 0 <= index < |todos| {
        todos := todos[..index] + todos[index + 1..];
        Save();
        return true;
      }
      return false;
    }

    /** `toggle_completed`: flip one task's completion, leaving every other
        task and field as it was. */
    method ToggleCompleted(index: int) returns (r: bool)
      modifies this
      ensures r <==> 0 <= index < |old(todos)|
      ensures r ==> todos == old(todos)[index := Toggled(old(todos)[index])] && file == Some(Encode(todos))
      ensures !r ==> todos == old(todos) && file == old(file)
    {
      if 0 <= index < |todos| {
        todos := todos[index := Toggled(todos[index])];
        Save();
        return true;
      }
      return false;
    }

    /** `cleanup`: keep the open tasks, in order, and save. */
    method Cleanup()
      modifies this
      ensures todos == Filter(old(todos), IsOpen)
      ensures file == Some(Encode(todos))
    {
      todos := Filter(todos, IsOpen);
      Save();
    }
  }
}
