/** Python's `csv` module in its default `excel` dialect, as the CSV task
    manager uses it: the writer with minimal quoting and "\r\n" line ends,
    and the reader's state machine (non-strict, doubled quotes, field size
    limit 131072).

    The reader is handed a file opened in text mode, line by line; after the
    characters of each line it sees an end-of-line signal (`Eol`). */
module Csv {
  import opened Wrappers
  import opened Text
  import opened Ordering

  /** `csv.field_size_limit()` at its default. */
  const FieldLimit: nat := 131072

  // ---------------------------------------------------------------- writer

  /** Minimal quoting: a field is quoted when it holds the delimiter, the
      quote character or a character of the line terminator. */
  predicate NeedsQuoting(f: string) {
    ',' in f || '"' in f || '\r' in f || '\n' in f
  }

  /** A field of lower-case letters only, such as a column name. */
  predicate Letters(f: string) {
    forall i :: 0 <= i < |f| ==> 'a' <= f[i] <= 'z'
  }

  /** Such a field is written as it is. */
  lemma LettersUnquoted(f: string)
    requires Letters(f)
    ensures EncodeField(f) == f
  {
  }

  /** The quote character doubled. */
  function Escape(f: string): (r: string)
    ensures |r| >= |f|
  {
    if f == [] then "" else (if f[0] == '"' then "\"\"" else [f[0]]) + Escape(f[1..])
  }

  function EncodeField(f: string): string {
    if NeedsQuoting(f) then "\"" + Escape(f) + "\"" else f
  }

  function EncodeFields(fs: seq<string>): string {
    if |fs| == 0 then ""
    else if |fs| == 1 then EncodeField(fs[0])
    else EncodeField(fs[0]) + "," + EncodeFields(fs[1..])
  }

  /** `writer.writerow(fields)`: a record of one empty field is written as
      an empty quoted field, so that it does not read back as a blank line. */
  function EncodeRow(fs: seq<string>): string {
    (if fs == [""] then "\"\"" else EncodeFields(fs)) + "\r\n"
  }

  /** Every row written in turn. */
  function EncodeRows(rows: seq<seq<string>>): string {
    ConcatMap(rows, EncodeRow)
  }

  // ---------------------------------------------------------------- reader

  datatype Token = Char(c: char) | Eol

  /** The reader's input for a text: each character, and the end-of-line
      signal after each "\n" and after a last line that has no "\n". */
  function Tokens(s: string): seq<Token> {
    Toks(s) + (if s != [] && s[|s| - 1] != '\n' then [Eol] else [])
  }

  /** The characters of `s`, each "\n" followed by the end-of-line signal. */
  function Toks(s: string): seq<Token> {
    if s == [] then []
    else (if s[0] == '\n' then [Char('\n'), Eol] else [Char(s[0])]) + Toks(s[1..])
  }

  lemma {:induction false} ToksConcat(a: string, b: string)
    ensures Toks(a + b) == Toks(a) + Toks(b)
  {
    if a == [] {
      assert a + b == b;
    } else {
      assert (a + b)[0] == a[0];
      assert (a + b)[1..] == a[1..] + b;
      ToksConcat(a[1..], b);
    }
  }

  datatype Mode = StartRecord | StartField | InField | InQuotedField | QuoteInQuotedField | EatCrNl

  /** The parser state: its mode, the field being read, the fields of the
      record being read, and the records returned so far. */
  datatype Reader = Reader(mode: Mode, field: string, fields: seq<string>, rows: seq<seq<string>>)

  const Start: Reader := Reader(StartRecord, [], [], [])

  /** Add a character to the field; past the size limit this is the
      "field larger than field limit" error. */
  function AddChar(r: Reader, c: char, m: Mode): (o: Option<Reader>)
    ensures o.Some? <==> |r.field| < FieldLimit
    ensures o.Some? ==> o.value == r.(mode := m, field := r.field + [c])
  {
    if |r.field| >= FieldLimit then None else Some(r.(mode := m, field := r.field + [c]))
  }

  function SaveField(r: Reader, m: Mode): Reader {
    r.(mode := m, fields := r.fields + [r.field], field := [])
  }

  /** The record is complete: the reader returns it and starts a new one. */
  function Emit(r: Reader): Reader {
    Reader(StartRecord, [], [], r.rows + [r.fields])
  }

  function IsLineBreak(c: char): bool {
    c == '\n' || c == '\r'
  }

  /** A character at the start of a field. */
  function StartFieldChar(r: Reader, c: char): Option<Reader> {
    if IsLineBreak(c) then Some(SaveField(r, EatCrNl))
    else if c == '"' then Some(r.(mode := InQuotedField))
    else if c == ',' then Some(SaveField(r, StartField))
    else AddChar(r, c, InField)
  }

  /** One step of the parser; None is a `csv.Error`. */
  function Step(r: Reader, t: Token): Option<Reader> {
    match r.mode
    case StartRecord =>
      if t.Eol? then Some(Emit(r))
      else if IsLineBreak(t.c) then Some(r.(mode := EatCrNl))
      else StartFieldChar(r, t.c)
    case StartField =>
      if t.Eol? then Some(Emit(SaveField(r, StartRecord))) else StartFieldChar(r, t.c)
    case InField =>
      if t.Eol? then Some(Emit(SaveField(r, StartRecord)))
      else if IsLineBreak(t.c) then Some(SaveField(r, EatCrNl))
      else if t.c == ',' then Some(SaveField(r, StartField))
      else AddChar(r, t.c, InField)
    case InQuotedField =>
      if t.Eol? then Some(r)
      else if t.c == '"' then Some(r.(mode := QuoteInQuotedField))
      else AddChar(r, t.c, InQuotedField)
    case QuoteInQuotedField =>
      if t.Eol? then Some(Emit(SaveField(r, StartRecord)))
      else if t.c == '"' then AddChar(r, '"', InQuotedField)
      else if t.c == ',' then Some(SaveField(r, StartField))
      else if IsLineBreak(t.c) then Some(SaveField(r, EatCrNl))
      else AddChar(r, t.c, InField)
    case EatCrNl =>
      if t.Eol? then Some(Emit(r))
      else if IsLineBreak(t.c) then Some(r)
      else None
  }

  function Run(r: Reader, ts: seq<Token>): Option<Reader>
    decreases |ts|
  {
    if ts == [] then Some(r)
    else
      var o := Step(r, ts[0]);
      if o.None? then None else Run(o.value, ts[1..])
  }

  function Then(o: Option<Reader>, ts: seq<Token>): Option<Reader> {
    if o.None? then None else Run(o.value, ts)
  }

  lemma {:induction false} RunConcat(r: Reader, a: seq<Token>, b: seq<Token>)
    ensures Run(r, a + b) == Then(Run(r, a), b)
    decreases |a|
  {
    if a == [] {
      assert a + b == b;
    } else {
      assert (a + b)[0] == a[0];
      assert (a + b)[1..] == a[1..] + b;
      var o := Step(r, a[0]);
      if o.Some? {
        RunConcat(o.value, a[1..], b);
      }
    }
  }

  /** At the end of the input a field still open is saved and its record
      returned. */
  function Finish(r: Reader): seq<seq<string>> {
    if r.field != [] || r.mode == InQuotedField then r.rows + [r.fields + [r.field]] else r.rows
  }

  /** Every record of a text (blank lines give `[]`), or None for a
      `csv.Error`. */
  function Read(text: string): Option<seq<seq<string>>> {
    var o := Run(Start, Tokens(text));
    if o.None? then None else Some(Finish(o.value))
  }

  // ------------------------------------------------------ reading back

  /** A field the writer and reader carry unchanged: a carriage return would
      be turned into "\n" by the text layer, and the reader refuses fields
      longer than its limit. */
  predicate Writable(f: string) {
    '\r' !in f && |f| <= FieldLimit
  }

  /** A mode in which the field being read is closed by a delimiter or a
      line break. */
  predicate Open(m: Mode) {
    m == StartField || m == InField || m == QuoteInQuotedField
  }

  /** The characters of an unquoted field are added one by one. */
  lemma {:induction false} PlainRun(r: Reader, f: string)
    requires r.mode == InField && |r.field| + |f| <= FieldLimit
    requires !NeedsQuoting(f)
    ensures Run(r, Toks(f)) == Some(r.(field := r.field + f))
    decreases |f|
  {
    if f == [] {
      assert r.field + f == r.field;
    } else {
      var r' := r.(field := r.field + [f[0]]);
      assert Toks(f) == [Char(f[0])] + Toks(f[1..]);
      assert Step(r, Char(f[0])) == Some(r');
      assert !NeedsQuoting(f[1..]) by {
        assert forall c :: c in f[1..] ==> c in f;
      }
      PlainRun(r', f[1..]);
      assert r.field + f == r.field + [f[0]] + f[1..];
    }
  }

  /** The escaped body of a quoted field gives back the field's characters. */
  lemma {:induction false} QuotedRun(r: Reader, f: string)
    requires r.mode == InQuotedField && |r.field| + |f| <= FieldLimit
    requires '\r' !in f
    ensures Run(r, Toks(Escape(f))) == Some(r.(field := r.field + f))
    decreases |f|
  {
    if f == [] {
      assert r.field + f == r.field;
    } else {
      var c := f[0];
      var head := if c == '"' then "\"\"" else [c];
      var r' := r.(field := r.field + [c]);
      assert Escape(f) == head + Escape(f[1..]);
      ToksConcat(head, Escape(f[1..]));
      RunConcat(r, Toks(head), Toks(Escape(f[1..])));
      if c == '"' {
        assert Toks(head) == [Char('"'), Char('"')];
        var q := r.(mode := QuoteInQuotedField);
        assert Step(r, Char('"')) == Some(q);
        assert Step(q, Char('"')) == Some(r');
        assert Run(q, [Char('"')]) == Some(r');
      } else if c == '\n' {
        assert Toks(head) == [Char('\n'), Eol];
        assert Step(r, Char('\n')) == Some(r');
        assert Step(r', Eol) == Some(r');
        assert Run(r', [Eol]) == Some(r');
      } else {
        assert Toks(head) == [Char(c)];
        assert Step(r, Char(c)) == Some(r');
        assert Run(r', []) == Some(r');
      }
      assert Run(r, Toks(head)) == Some(r');
      assert '\r' !in f[1..] by {
        assert forall x :: x in f[1..] ==> x in f;
      }
      QuotedRun(r', f[1..]);
      assert r.field + f == r.field + [c] + f[1..];
    }
  }

  /** At the start of a field an ordinary character opens an unquoted
      field and the quote character a quoted one. */
  lemma FieldStartStep(r: Reader, c: char)
    requires (r.mode == StartRecord || r.mode == StartField) && r.field == []
    requires c != '\n' && c != '\r' && c != ','
    ensures c == '"' ==> Step(r, Char(c)) == Some(r.(mode := InQuotedField))
    ensures c != '"' ==> Step(r, Char(c)) == Some(r.(mode := InField, field := [c]))
  {
    assert r.field + [c] == [c];
  }

  lemma QuotedFieldRun(r: Reader, f: string)
    requires (r.mode == StartRecord || r.mode == StartField) && r.field == []
    requires Writable(f)
    ensures Run(r, Toks("\"" + Escape(f) + "\"")) == Some(r.(mode := QuoteInQuotedField, field := f))
  {
    var q := r.(mode := InQuotedField);
    assert "\"" + Escape(f) + "\"" == "\"" + (Escape(f) + "\"");
    ToksConcat("\"", Escape(f) + "\"");
    ToksConcat(Escape(f), "\"");
    assert Toks("\"") == [Char('"')];
    RunConcat(r, [Char('"')], Toks(Escape(f)) + [Char('"')]);
    FieldStartStep(r, '"');
    assert Run(r, [Char('"')]) == Some(q);
    RunConcat(q, Toks(Escape(f)), [Char('"')]);
    QuotedRun(q, f);
    assert q.field + f == f;
    var q' := q.(field := f);
    assert Step(q', Char('"')) == Some(q'.(mode := QuoteInQuotedField));
  }

  lemma PlainFieldRun(r: Reader, f: string)
    requires (r.mode == StartRecord || r.mode == StartField) && r.field == []
    requires Writable(f) && !NeedsQuoting(f) && f != []
    ensures Run(r, Toks(f)) == Some(r.(mode := InField, field := f))
  {
    var r1 := r.(mode := InField, field := [f[0]]);
    assert Toks(f) == [Char(f[0])] + Toks(f[1..]);
    assert f[0] in f;
    FieldStartStep(r, f[0]);
    assert !NeedsQuoting(f[1..]) by {
      assert forall c :: c in f[1..] ==> c in f;
    }
    PlainRun(r1, f[1..]);
    assert [f[0]] + f[1..] == f;
  }

  /** Reading one written field from the start of a field leaves it pending,
      in a mode where a delimiter or line break will save it. */
  lemma FieldRun(r: Reader, f: string)
    requires (r.mode == StartRecord || r.mode == StartField) && r.field == []
    requires Writable(f)
    ensures Run(r, Toks(EncodeField(f))).Some?
    ensures var r' := Run(r, Toks(EncodeField(f))).value;
      r'.field == f && r'.fields == r.fields && r'.rows == r.rows
      && (Open(r'.mode) || (r'.mode == r.mode && f == []))
      && (r.mode == StartField ==> Open(r'.mode))
  {
    if NeedsQuoting(f) {
      QuotedFieldRun(r, f);
    } else if f != [] {
      PlainFieldRun(r, f);
    }
  }

  /** A written field and its delimiter: the field is saved and the next
      one starts. */
  lemma FieldThenDelimiter(r: Reader, f: string, rest: string)
    requires (r.mode == StartRecord || r.mode == StartField) && r.field == []
    requires Writable(f)
    ensures Run(r, Toks(EncodeField(f) + "," + rest)) == Run(Reader(StartField, [], r.fields + [f], r.rows), Toks(rest))
  {
    var e := EncodeField(f);
    FieldRun(r, f);
    var r1 := Run(r, Toks(e)).value;
    var r2 := Reader(StartField, [], r.fields + [f], r.rows);
    assert e + "," + rest == e + ("," + rest);
    ToksConcat(e, "," + rest);
    ToksConcat(",", rest);
    assert Toks(",") == [Char(',')];
    RunConcat(r, Toks(e), [Char(',')] + Toks(rest));
    RunConcat(r1, [Char(',')], Toks(rest));
    assert Step(r1, Char(',')) == Some(r2);
  }

  /** The fields of one row, written with their delimiters, read from the
      start of a record: all but the last saved, the last pending. */
  lemma {:induction false} FieldsRun(r: Reader, fs: seq<string>)
    requires |fs| >= 1
    requires (r.mode == StartRecord || r.mode == StartField) && r.field == []
    requires forall k :: 0 <= k < |fs| ==> Writable(fs[k])
    ensures Run(r, Toks(EncodeFields(fs))).Some?
    ensures var r' := Run(r, Toks(EncodeFields(fs))).value;
      r'.field == fs[|fs| - 1] && r'.fields == r.fields + fs[..|fs| - 1] && r'.rows == r.rows
      && (Open(r'.mode) || (|fs| == 1 && r'.mode == r.mode))
    decreases |fs|
  {
    if |fs| == 1 {
      FieldRun(r, fs[0]);
    } else {
      var r2 := Reader(StartField, [], r.fields + [fs[0]], r.rows);
      FieldThenDelimiter(r, fs[0], EncodeFields(fs[1..]));
      FieldsRun(r2, fs[1..]);
      assert r.fields + [fs[0]] + fs[1..][..|fs| - 2] == r.fields + fs[..|fs| - 1];
    }
  }

  /** A line break after a pending field saves it and returns the record. */
  lemma LineEndRun(r: Reader)
    requires Open(r.mode)
    ensures Run(r, [Char('\n'), Eol]) == Some(Reader(StartRecord, [], [], r.rows + [r.fields + [r.field]]))
  {
    var r2 := SaveField(r, EatCrNl);
    assert Step(r, Char('\n')) == Some(r2);
    assert Step(r2, Eol) == Some(Emit(r2));
    assert [Char('\n'), Eol][1..] == [Eol];
  }

  /** The line end after the last pending field of a row. */
  lemma RowEnd(o: Option<Reader>, fs: seq<string>)
    requires o.Some? && Open(o.value.mode) && o.value.fields + [o.value.field] == fs
    ensures Then(o, [Char('\n'), Eol]) == Some(Reader(StartRecord, [], [], o.value.rows + [fs]))
  {
    LineEndRun(o.value);
  }

  /** A written row, its line end read back as "\n", is read as that row. */
  lemma RowRun(r: Reader, fs: seq<string>)
    requires r.mode == StartRecord && r.field == [] && r.fields == []
    requires |fs| >= 2
    requires forall k :: 0 <= k < |fs| ==> Writable(fs[k])
    ensures Then(Run(r, Toks(EncodeFields(fs))), [Char('\n'), Eol]) == Some(Reader(StartRecord, [], [], r.rows + [fs]))
  {
    FieldsRun(r, fs);
    var o := Run(r, Toks(EncodeFields(fs)));
    var last := o.value;
    assert last.fields == fs[..|fs| - 1];
    assert fs[..|fs| - 1] + [fs[|fs| - 1]] == fs;
    RowEnd(o, fs);
  }

  /** A record of one empty field is read back as that record, not as the
      empty record of a blank line. */
  lemma EmptyFieldRow()
    ensures Read(UniversalNewlines(EncodeRow([""]))) == Some([[""]])
  {
    var text := "\"\"\n";
    EmptyFieldText();
    var q := Reader(QuoteInQuotedField, [], [], []);
    var e := Reader(EatCrNl, [], [""], []);
    assert Run(Start, Toks(text)) == Run(Start.(mode := InQuotedField), Toks(text)[1..]);
    assert Run(Start.(mode := InQuotedField), Toks(text)[1..]) == Run(q, Toks(text)[2..]);
    assert Toks(text)[2..] == [Char('\n'), Eol] && [Char('\n'), Eol][1..] == [Eol];
    assert q.fields + [q.field] == [""];
    assert Step(q, Char('\n')) == Some(e);
    assert Run(q, Toks(text)[2..]) == Run(e, [Eol]);
    var rows: seq<seq<string>> := [];
    assert Step(e, Eol) == Some(Reader(StartRecord, [], [], rows + [[""]]));
    assert [Eol][1..] == [] && rows + [[""]] == [[""]];
  }

  /** The text and tokens the reader sees for that record. */
  lemma EmptyFieldText()
    ensures UniversalNewlines(EncodeRow([""])) == "\"\"\n"
    ensures Tokens("\"\"\n") == Toks("\"\"\n") == [Char('"'), Char('"'), Char('\n'), Eol]
  {
    assert UniversalNewlines("\n") == "\n";
    assert Toks("\n") == [Char('\n'), Eol];
  }

  /** A row that the writer and reader carry unchanged. */
  predicate RowWritable(fs: seq<string>) {
    |fs| >= 2 && forall k :: 0 <= k < |fs| ==> Writable(fs[k])
  }

  lemma {:induction false} EncodeFieldsNoCr(fs: seq<string>)
    requires forall k :: 0 <= k < |fs| ==> '\r' !in fs[k]
    ensures '\r' !in EncodeFields(fs)
  {
    if |fs| >= 1 {
      var f := fs[0];
      assert '\r' !in f;
      EscapeNoCr(f);
      assert '\r' !in EncodeField(f);
      if |fs| > 1 {
        EncodeFieldsNoCr(fs[1..]);
      }
    }
  }

  lemma {:induction false} EscapeNoCr(f: string)
    requires '\r' !in f
    ensures '\r' !in Escape(f)
  {
    if f != [] {
      assert '\r' !in f[1..] by {
        assert forall x :: x in f[1..] ==> x in f;
      }
      EscapeNoCr(f[1..]);
    }
  }

  /** What the text layer reads back from written rows: their line ends
      turned into "\n". */
  function ReadBack(rows: seq<seq<string>>): string {
    if rows == [] then "" else EncodeFields(rows[0]) + "\n" + ReadBack(rows[1..])
  }

  lemma {:induction false} ReadBackTranslation(rows: seq<seq<string>>)
    requires forall i :: 0 <= i < |rows| ==> RowWritable(rows[i])
    ensures UniversalNewlines(EncodeRows(rows)) == ReadBack(rows)
  {
    if rows != [] {
      EncodeFieldsNoCr(rows[0]);
      assert EncodeRows(rows) == EncodeFields(rows[0]) + "\r\n" + EncodeRows(rows[1..]);
      UniversalNewlinesCrLf(EncodeFields(rows[0]), EncodeRows(rows[1..]));
      ReadBackTranslation(rows[1..]);
    }
  }

  lemma {:induction false} ReadBackRun(done: seq<seq<string>>, rows: seq<seq<string>>)
    requires forall i :: 0 <= i < |rows| ==> RowWritable(rows[i])
    ensures Run(Reader(StartRecord, [], [], done), Toks(ReadBack(rows)))
         == Some(Reader(StartRecord, [], [], done + rows))
    decreases |rows|
  {
    if rows == [] {
      assert done + rows == done;
    } else {
      ReadBackHead(done, rows);
      ReadBackRun(done + [rows[0]], rows[1..]);
      assert done + [rows[0]] + rows[1..] == done + rows;
    }
  }

  /** The first row read back is returned, and reading goes on from there. */
  lemma ReadBackHead(done: seq<seq<string>>, rows: seq<seq<string>>)
    requires rows != [] && RowWritable(rows[0])
    ensures Run(Reader(StartRecord, [], [], done), Toks(ReadBack(rows)))
         == Run(Reader(StartRecord, [], [], done + [rows[0]]), Toks(ReadBack(rows[1..])))
  {
    var r := Reader(StartRecord, [], [], done);
    var line := EncodeFields(rows[0]) + "\n";
    assert ReadBack(rows) == line + ReadBack(rows[1..]);
    ToksConcat(line, ReadBack(rows[1..]));
    RunConcat(r, Toks(line), Toks(ReadBack(rows[1..])));
    LineToks(r, EncodeFields(rows[0]));
    RowRun(r, rows[0]);
  }

  lemma {:induction false} ReadBackEnd(rows: seq<seq<string>>)
    ensures ReadBack(rows) == [] || ReadBack(rows)[|ReadBack(rows)| - 1] == '\n'
  {
    if rows != [] {
      ReadBackEnd(rows[1..]);
    }
  }

  /** Round trip: reading what the writer wrote, through the text layer's
      newline translation, gives back every row. */
  lemma RoundTrip(rows: seq<seq<string>>)
    requires forall i :: 0 <= i < |rows| ==> RowWritable(rows[i])
    ensures Read(UniversalNewlines(EncodeRows(rows))) == Some(rows)
  {
    ReadBackTranslation(rows);
    ReadBackEnd(rows);
    var text := ReadBack(rows);
    assert Tokens(text) == Toks(text);
    ReadBackRun([], rows);
    assert [] + rows == rows;
  }

  // ------------------------------------------------------ records so far

  /** `b` starts with the records of `a`. */
  predicate Extends(a: seq<seq<string>>, b: seq<seq<string>>) {
    |a| <= |b| && forall k :: 0 <= k < |a| ==> b[k] == a[k]
  }

  /** A step never changes a record already returned. */
  lemma StepExtends(r: Reader, t: Token)
    requires Step(r, t).Some?
    ensures Extends(r.rows, Step(r, t).value.rows)
  {
  }

  /** Nor does any amount of further input. */
  lemma {:induction false} RunExtends(r: Reader, ts: seq<Token>)
    requires Run(r, ts).Some?
    ensures Extends(r.rows, Run(r, ts).value.rows)
    decreases |ts|
  {
    if ts != [] {
      var r1 := Step(r, ts[0]).value;
      StepExtends(r, ts[0]);
      RunExtends(r1, ts[1..]);
    }
  }

  /** Fields that need no quoting are written joined by the delimiter. */
  lemma {:induction false} EncodeFieldsPlain(fs: seq<string>)
    requires forall k :: 0 <= k < |fs| ==> !NeedsQuoting(fs[k])
    ensures EncodeFields(fs) == Join(fs, ',')
  {
    if |fs| >= 2 {
      EncodeFieldsPlain(fs[1..]);
    }
  }

  /** A first line with no delimiter, quote or carriage return is read as a
      record of one field (none when the line is empty). */
  lemma FirstLineRun(line: string)
    requires Writable(line) && !NeedsQuoting(line)
    ensures Run(Start, Toks(line + "\n")) == Some(Reader(StartRecord, [], [], [if line == [] then [] else [line]]))
  {
    ToksConcat(line, "\n");
    assert Toks("\n") == [Char('\n'), Eol];
    RunConcat(Start, Toks(line), [Char('\n'), Eol]);
    if line == [] {
      assert Toks(line) == [];
      var r := Start.(mode := EatCrNl);
      assert Step(Start, Char('\n')) == Some(r);
      assert r.rows + [r.fields] == [[]];
      assert Step(r, Eol) == Some(Reader(StartRecord, [], [], [[]]));
      assert Run(Start, [Char('\n'), Eol]) == Run(r, [Eol]);
    } else {
      PlainFieldRun(Start, line);
      LineEndRun(Start.(mode := InField, field := line));
      var fields: seq<string> := [];
      var rows: seq<seq<string>> := [];
      assert Start.fields == fields && Start.rows == rows;
      assert fields + [line] == [line];
      assert rows + [[line]] == [[line]];
    }
  }

  /** A line without quote or line break whose comma-separated pieces fit
      the field size limit. */
  predicate PlainLine(line: string) {
    '"' !in line && '\r' !in line && '\n' !in line
    && forall k :: 0 <= k < |Split(line, ',')| ==> |Split(line, ',')[k]| <= FieldLimit
  }

  /** Its pieces are written as they are, and written back they give the
      line. */
  lemma PlainLinePieces(line: string)
    requires PlainLine(line)
    ensures forall k :: 0 <= k < |Split(line, ',')| ==> Writable(Split(line, ',')[k]) && !NeedsQuoting(Split(line, ',')[k])
    ensures EncodeFields(Split(line, ',')) == line
  {
    SplitPieces(line, ',');
    SplitAvoids(line, ',', '"');
    SplitAvoids(line, ',', '\r');
    SplitAvoids(line, ',', '\n');
    var fs := Split(line, ',');
    forall k | 0 <= k < |fs|
      ensures Writable(fs[k]) && !NeedsQuoting(fs[k])
    {
      assert |fs[k]| <= FieldLimit;
    }
    EncodeFieldsPlain(fs);
  }

  /** A line and its line break are read as the line, then "\n" and the
      end-of-line signal. */
  lemma LineToks(r: Reader, line: string)
    ensures Run(r, Toks(line + "\n")) == Then(Run(r, Toks(line)), [Char('\n'), Eol])
  {
    ToksConcat(line, "\n");
    assert Toks("\n") == [Char('\n'), Eol];
    RunConcat(r, Toks(line), [Char('\n'), Eol]);
  }

  /** A line with a delimiter: its pieces are read as one record. */
  lemma PiecesRun(line: string)
    requires PlainLine(line) && ',' in line
    ensures Run(Start, Toks(line + "\n")) == Some(Reader(StartRecord, [], [], [Split(line, ',')]))
  {
    var fs := Split(line, ',');
    PlainLinePieces(line);
    SplitSeparated(line, ',');
    LineToks(Start, line);
    RowRun(Start, fs);
    var rows: seq<seq<string>> := [];
    assert Start.rows == rows && rows + [fs] == [fs];
  }

  /** Such a first line is read as the record of its comma-separated pieces
      (no field when the line is empty). */
  lemma PlainLineRun(line: string)
    requires PlainLine(line)
    ensures Run(Start, Toks(line + "\n")) ==
      Some(Reader(StartRecord, [], [], [if line == [] then [] else Split(line, ',')]))
  {
    if ',' in line {
      PiecesRun(line);
    } else {
      SplitNoSeparator(line, ',');
      assert |Split(line, ',')[0]| <= FieldLimit;
      FirstLineRun(line);
    }
  }

  /** Whatever follows a first line without quote or line break, reading
      either fails or returns the line's comma-separated pieces as its first
      record. */
  lemma FirstRecord(line: string, rest: string)
    requires PlainLine(line)
    ensures var o := Read(line + "\n" + rest);
      o.Some? ==> o.value != [] && o.value[0] == (if line == [] then [] else Split(line, ','))
  {
    var text := line + "\n" + rest;
    var tail := if text != [] && text[|text| - 1] != '\n' then [Eol] else [];
    ToksConcat(line + "\n", rest);
    assert Tokens(text) == Toks(line + "\n") + (Toks(rest) + tail);
    RunConcat(Start, Toks(line + "\n"), Toks(rest) + tail);
    PlainLineRun(line);
    var r1 := Reader(StartRecord, [], [], [if line == [] then [] else Split(line, ',')]);
    if Run(r1, Toks(rest) + tail).Some? {
      RunExtends(r1, Toks(rest) + tail);
    }
  }
}
