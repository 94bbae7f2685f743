/** The category list both applications keep beside the tasks: stored one
    name per line, always holding the default category "Allgemein", kept
    sorted when a name is added, and emptied of a name only after its tasks
    have been moved to the default category. */
module Categories {
  import opened Wrappers
  import opened Text
  import opened Records
  import opened Ordering

  /** Why adding a category is refused (a warning dialog in the source). */
  datatype CategoryError = BlankName | DuplicateName

  // ---------------------------------------------------------------- file

  /** A stripped, non-blank line: the name it holds. */
  function NameOf(line: string): Option<string> {
    var name := Strip(line);
    if name == [] then None else Some(name)
  }

  /** `[line.strip() for line in f.readlines() if line.strip()]` */
  function ParseNames(text: string): seq<string> {
    Collect(Lines(UniversalNewlines(text)), NameOf)
  }

  /** `load_categories`: the names in the file (the default category alone
      when the file is missing or holds none), with the default category
      put in front when it is not among them. */
  function LoadedCategories(file: Option<string>): (r: seq<string>)
    ensures General in r
    ensures file.None? ==> r == [General]
    ensures file.Some? && General in ParseNames(file.value) ==> r == ParseNames(file.value)
    ensures file.Some? && General !in ParseNames(file.value) ==> r == [General] + ParseNames(file.value)
  {
    var names := if file.None? || ParseNames(file.value) == [] then [General] else ParseNames(file.value);
    if General in names then names else [General] + names
  }

  /** `save_categories`: the names joined by "\n". */
  function SaveText(cats: seq<string>): string {
    Join(cats, '\n')
  }

  /** A name `save_categories` writes so that `load_categories` reads it
      back: not blank, on one line, with no whitespace at either end. */
  predicate Storable(name: string) {
    name != [] && '\n' !in name && '\r' !in name && !IsSpace(name[0]) && !IsSpace(name[|name| - 1])
  }

  lemma {:induction false} LineLengthWhole(a: string)
    requires a != [] && '\n' !in a
    ensures LineLength(a) == |a|
  {
    if |a| > 1 {
      assert a[0] != '\n' && a[0] in a;
      assert '\n' !in a[1..] by {
        assert forall c :: c in a[1..] ==> c in a;
      }
      LineLengthWhole(a[1..]);
    }
  }

  lemma {:induction false} JoinNoCarriageReturn(cats: seq<string>)
    requires forall i :: 0 <= i < |cats| ==> '\r' !in cats[i]
    ensures '\r' !in Join(cats, '\n')
  {
    if |cats| > 1 {
      JoinNoCarriageReturn(cats[1..]);
    }
  }

  lemma {:induction false} ParseJoined(cats: seq<string>)
    requires forall i :: 0 <= i < |cats| ==> Storable(cats[i])
    ensures Collect(Lines(Join(cats, '\n')), NameOf) == cats
  {
    if |cats| == 1 {
      var c := cats[0];
      LineLengthWhole(c);
      assert Lines(c) == [c[..|c|]] + Lines(c[|c|..]);
      assert c[..|c|] == c && c[|c|..] == [];
      StripClean(c);
    } else if |cats| > 1 {
      var c := cats[0];
      var rest := Join(cats[1..], '\n');
      assert Join(cats, '\n') == c + "\n" + rest;
      LinesPrefix(c, rest);
      StripNewlineTerminated(c);
      ParseJoined(cats[1..]);
      var lines := Lines(Join(cats, '\n'));
      assert lines[0] == c + "\n" && lines[1..] == Lines(rest);
    }
  }

  /** Round trip: loading what `save_categories` wrote gives back the list,
      provided it holds the default category. */
  lemma RoundTrip(cats: seq<string>)
    requires forall i :: 0 <= i < |cats| ==> Storable(cats[i])
    requires General in cats
    ensures LoadedCategories(Some(SaveText(cats))) == cats
  {
    JoinNoCarriageReturn(cats);
    ParseJoined(cats);
  }

  // ------------------------------------------------------------ editing

  /** The inner `save_category`: the entered name is stripped; a blank or
      known name is refused; otherwise it is appended and the list sorted. */
  function AddCategory(cats: seq<string>, entry: string): (r: Result<seq<string>, CategoryError>)
    ensures r == Err(BlankName) <==> Strip(entry) == []
    ensures r == Err(DuplicateName) <==> Strip(entry) != [] && Strip(entry) in cats
    ensures r.Ok? ==> multiset(r.value) == multiset(cats) + multiset{Strip(entry)}
  {
    var name := Strip(entry);
    if name == [] then Err(BlankName)
    else if name in cats then Err(DuplicateName)
    else Ok(SortBy(cats + [name], Codes))
  }

  /** An added name leaves the list sorted, holding the new name and every
      old one, and duplicate-free if it was. */
  lemma AddCategorySorted(cats: seq<string>, entry: string)
    requires AddCategory(cats, entry).Ok?
    ensures var r := AddCategory(cats, entry).value;
      Sorted(r, Codes) && Strip(entry) in r && (forall i :: 0 <= i < |cats| ==> cats[i] in r)
      && (Distinct(cats) ==> Distinct(r))
  {
    var name := Strip(entry);
    var r := AddCategory(cats, entry).value;
    SortBySorted(cats + [name], Codes);
    AddedMembers(cats, name, r);
    if Distinct(cats) {
      DistinctCounts(cats);
      assert multiset(cats)[name] == 0;
      DistinctCounts(r);
    }
  }

  lemma AddedMembers(cats: seq<string>, name: string, r: seq<string>)
    requires multiset(r) == multiset(cats) + multiset{name}
    ensures name in r && forall i :: 0 <= i < |cats| ==> cats[i] in r
  {
    assert name in multiset(r);
    forall i | 0 <= i < |cats| ensures cats[i] in r {
      assert cats[i] in multiset(cats);
      assert cats[i] in multiset(r);
    }
  }

  predicate Removable(name: string) {
    name != General
  }

  /** The names `remove_category` offers: every one but the default. */
  function RemovableCategories(cats: seq<string>): (r: seq<string>)
    ensures General !in r
    ensures forall i :: 0 <= i < |cats| ==> (cats[i] in r <==> cats[i] != General)
  {
    FilterMembers(cats, Removable);
    assert General !in Filter(cats, Removable) by {
      FilterSub(cats, Removable, General);
    }
    Filter(cats, Removable)
  }

  /** `list.remove(name)`: drops the first occurrence; None (`ValueError`)
      when the name is not in the list. */
  function RemoveFirst(cats: seq<string>, name: string): (r: Option<seq<string>>)
    ensures r.None? <==> name !in cats
    ensures r.Some? ==> multiset(r.value) == multiset(cats) - multiset{name} && |r.value| == |cats| - 1
  {
    if cats == [] then None
    else if cats[0] == name then
      assert cats == [name] + cats[1..];
      Some(cats[1..])
    else
      assert cats == [cats[0]] + cats[1..];
      match RemoveFirst(cats[1..], name)
      case None => None
      case Some(rest) => Some([cats[0]] + rest)
  }

  /** Removing a name from a duplicate-free list removes it entirely and
      keeps every other name. */
  lemma RemoveFirstGone(cats: seq<string>, name: string)
    requires Distinct(cats) && name in cats
    ensures var r := RemoveFirst(cats, name).value;
      name !in r && Distinct(r) && forall x :: x in cats && x != name ==> x in r
  {
    var r := RemoveFirst(cats, name).value;
    DistinctCounts(cats);
    assert multiset(cats)[name] == 1;
    assert multiset(r)[name] == 0;
    DistinctCounts(r);
    forall x | x in cats && x != name ensures x in r {
      assert x in multiset(cats);
      assert multiset(r)[x] == multiset(cats)[x];
    }
  }

  /** One task as the category's removal leaves it: moved to the default
      category when `todo.get('category') == name`. */
  function Reassigned(t: Todo, name: string): (r: Todo)
    ensures r.text == t.text && r.priority == t.priority && r.deadline == t.deadline && r.completed == t.completed
    ensures t.category == Val(name) ==> r.category == Val(General)
    ensures t.category != Val(name) ==> r == t
  {
    if t.category == Val(name) then t.(category := Val(General)) else t
  }

  /** Every task as `delete_category` leaves the list. */
  function ReassignAll(ts: seq<Todo>, name: string): (r: seq<Todo>)
    ensures |r| == |ts| && forall i :: 0 <= i < |ts| ==> r[i] == Reassigned(ts[i], name)
  {
    seq(|ts|, i requires 0 <= i < |ts| => Reassigned(ts[i], name))
  }

  /** After the reassignment no task is left in a removed category, and
      only the tasks that were in it have changed. */
  lemma ReassignEmpties(ts: seq<Todo>, name: string)
    requires name != General
    ensures forall i :: 0 <= i < |ts| ==> ReassignAll(ts, name)[i].category != Val(name)
    ensures forall i :: 0 <= i < |ts| && ts[i].category != Val(name) ==> ReassignAll(ts, name)[i] == ts[i]
  {
  }

  /** A task whose category `load_todos` accepts: present, not `None`, not
      empty, and one of the known categories. */
  predicate Known(t: Todo, cats: seq<string>) {
    var c := Get(t.category, General);
    c.Some? && c.value != [] && c.value in cats
  }

  /** The category `load_todos` gives a task: an empty, `None` or unknown
      category becomes the default one, a known one stays. A missing key
      reads as the default one, so it stays missing when the default is
      listed. */
  function Coerced(t: Todo, cats: seq<string>): (r: Todo)
    ensures r.text == t.text && r.priority == t.priority && r.deadline == t.deadline && r.completed == t.completed
    ensures General in cats ==> Known(r, cats)
    ensures Known(t, cats) ==> r == t
    ensures !Known(t, cats) ==> r.category == Val(General)
  {
    if Known(t, cats) then t else t.(category := Val(General))
  }
}
