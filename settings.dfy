/** The settings of the main application: `key=value` lines read into an
    insertion-ordered dictionary laid over the defaults, the window size and
    colour theme taken from them, their serialisation, and the arithmetic
    that places the window on the screen. */
module Settings {
  import opened Wrappers
  import opened Text
  import opened Ordering

  /** A settings value: what the file yields is a string; the custom window
      coordinates are stored as integers. */
  datatype Value = Str(s: string) | Num(n: int)

  /** A Python dict: its entries in insertion order. */
  type Dict = seq<(string, Value)>

  function Keys(d: Dict): (r: seq<string>)
    ensures |r| == |d| && forall i :: 0 <= i < |d| ==> r[i] == d[i].0
  {
    seq(|d|, i requires 0 <= i < |d| => d[i].0)
  }

  lemma KeysCons(e: (string, Value), d: Dict)
    ensures Keys([e] + d) == [e.0] + Keys(d)
  {
  }

  /** `d.get(k)`: the value of the first entry with key `k`. */
  function Lookup(d: Dict, k: string): (r: Option<Value>)
    ensures r.Some? <==> k in Keys(d)
    ensures r.Some? ==> (k, r.value) in d
  {
    if d == [] then None
    else
      KeysCons(d[0], d[1..]);
      assert d == [d[0]] + d[1..];
      if d[0].0 == k then Some(d[0].1) else Lookup(d[1..], k)
  }

  /** `d[k] = v`: a known key keeps its place and takes the new value, a new
      key is appended; no other key's value changes. */
  function Put(d: Dict, k: string, v: Value): (r: Dict)
    ensures Lookup(r, k) == Some(v)
    ensures forall j :: j != k ==> Lookup(r, j) == Lookup(d, j)
  {
    if d == [] then [(k, v)]
    else if d[0].0 == k then [(k, v)] + d[1..]
    else [d[0]] + Put(d[1..], k, v)
  }

  /** A known key keeps its place, a new one goes at the end. */
  lemma {:induction false} PutKeys(d: Dict, k: string, v: Value)
    ensures Keys(Put(d, k, v)) == if k in Keys(d) then Keys(d) else Keys(d) + [k]
  {
    if d != [] {
      KeysCons(d[0], d[1..]);
      assert d == [d[0]] + d[1..];
      if d[0].0 == k {
        KeysCons((k, v), d[1..]);
      } else {
        PutKeys(d[1..], k, v);
        KeysCons(d[0], Put(d[1..], k, v));
      }
    }
  }

  /** Assigning a key keeps the keys of a dict distinct. */
  lemma PutDistinct(d: Dict, k: string, v: Value)
    requires Distinct(Keys(d))
    ensures Distinct(Keys(Put(d, k, v)))
  {
    PutKeys(d, k, v);
  }

  /** Assigning a new key appends the entry. */
  lemma {:induction false} PutFresh(d: Dict, k: string, v: Value)
    requires k !in Keys(d)
    ensures Put(d, k, v) == d + [(k, v)]
  {
    if d != [] {
      KeysCons(d[0], d[1..]);
      assert d == [d[0]] + d[1..];
      PutFresh(d[1..], k, v);
    }
  }

  /** `d.update(e)`: the entries of `e` assigned one after another. */
  function Update(d: Dict, e: Dict): Dict
    decreases |e|
  {
    if e == [] then d else Update(Put(d, e[0].0, e[0].1), e[1..])
  }

  /** After `d.update(e)` a key of `e` has its value there, every other key
      its value in `d`. */
  lemma {:induction false} UpdateLookup(d: Dict, e: Dict, k: string)
    requires Distinct(Keys(e))
    ensures Lookup(Update(d, e), k) == if k in Keys(e) then Lookup(e, k) else Lookup(d, k)
    decreases |e|
  {
    if e != [] {
      KeysCons(e[0], e[1..]);
      assert e == [e[0]] + e[1..];
      DistinctCons(Keys(e));
      UpdateLookup(Put(d, e[0].0, e[0].1), e[1..], k);
    }
  }

  /** `d.update(e)` keeps every key of `d`, and keeps the keys distinct. */
  lemma {:induction false} UpdateKeys(d: Dict, e: Dict)
    requires Distinct(Keys(d))
    ensures Distinct(Keys(Update(d, e)))
    ensures forall k :: k in Keys(d) ==> k in Keys(Update(d, e))
    decreases |e|
  {
    if e != [] {
      var d' := Put(d, e[0].0, e[0].1);
      PutDistinct(d, e[0].0, e[0].1);
      PutKeys(d, e[0].0, e[0].1);
      UpdateKeys(d', e[1..]);
    }
  }

  lemma FreshHead(d: Dict, e: Dict)
    requires e != [] && Distinct(Keys(d + e))
    ensures e[0].0 !in Keys(d)
  {
    var ks := Keys(d + e);
    forall i | 0 <= i < |d| ensures Keys(d)[i] != e[0].0 {
      assert ks[i] == d[i].0 && ks[|d|] == e[0].0;
    }
  }

  lemma SnocFirst<T>(a: seq<T>, b: seq<T>)
    requires b != []
    ensures (a + [b[0]]) + b[1..] == a + b
  {
  }

  /** Updating with entries whose keys are all new appends them in order. */
  lemma {:induction false} UpdateFresh(d: Dict, e: Dict)
    requires Distinct(Keys(d + e))
    ensures Update(d, e) == d + e
    decreases |e|
  {
    if e != [] {
      FreshHead(d, e);
      PutFresh(d, e[0].0, e[0].1);
      var d', e' := d + [e[0]], e[1..];
      assert Update(d, e) == Update(d', e');
      SnocFirst(d, e);
      UpdateFresh(d', e');
    }
  }

  // ------------------------------------------------------------ the file

  predicate Assigns(line: string) {
    '=' in line
  }

  /** `line.strip().split('=')` taken as a key and a value; None (the
      `ValueError` of `dict`) unless there are exactly two parts. */
  function PairOf(line: string): Option<(string, Value)> {
    var parts := Split(Strip(line), '=');
    if |parts| == 2 then Some((parts[0], Str(parts[1]))) else None
  }

  /** `dict(line.strip().split('=') for line in f if '=' in line)`: None
      when one of those lines does not split into exactly two parts; a
      later line for a key overrides an earlier one. */
  function ParseSettings(text: string): (r: Option<Dict>)
    ensures r.Some? ==> Distinct(Keys(r.value))
    ensures r.Some? ==> forall i :: 0 <= i < |r.value| ==> r.value[i].1.Str?
  {
    match TryMap(Filter(Lines(UniversalNewlines(text)), Assigns), PairOf)
    case None => None
    case Some(pairs) =>
      UpdateKeys([], pairs);
      UpdateStrings([], pairs);
      Some(Update([], pairs))
  }

  predicate AllStrings(d: Dict) {
    forall i :: 0 <= i < |d| ==> d[i].1.Str?
  }

  lemma {:induction false} UpdateStrings(d: Dict, e: Dict)
    requires AllStrings(d) && AllStrings(e)
    ensures AllStrings(Update(d, e))
    decreases |e|
  {
    if e != [] {
      var d' := Put(d, e[0].0, e[0].1);
      PutStrings(d, e[0].0, e[0].1);
      UpdateStrings(d', e[1..]);
    }
  }

  lemma {:induction false} PutStrings(d: Dict, k: string, v: Value)
    requires AllStrings(d) && v.Str?
    ensures AllStrings(Put(d, k, v))
  {
    if d != [] && d[0].0 != k {
      PutStrings(d[1..], k, v);
    }
  }

  /** How a value is written: `f"{value}"`. */
  function Show(v: Value): string {
    match v
    case Str(s) => s
    case Num(n) => IntToString(n)
  }

  function Line(kv: (string, Value)): string {
    kv.0 + "=" + Show(kv.1)
  }

  function Entry(kv: (string, Value)): string {
    Line(kv) + "\n"
  }

  /** `save_settings`: one `key=value` line per entry, in order. */
  function Serialize(d: Dict): string {
    ConcatMap(d, Entry)
  }

  /** An entry written so that loading reads it back: neither key nor value
      holds "=" or a line break, and the line has no whitespace at either
      end. */
  predicate StorableEntry(kv: (string, Value)) {
    var k, v := kv.0, Show(kv.1);
    '=' !in k && '=' !in v && '\n' !in k && '\n' !in v && '\r' !in k && '\r' !in v
    && (k == [] || !IsSpace(k[0])) && (v == [] || !IsSpace(v[|v| - 1]))
  }

  predicate Storable(d: Dict) {
    Distinct(Keys(d)) && forall i :: 0 <= i < |d| ==> StorableEntry(d[i])
  }

  /** What loading makes of a value: the string it was written as. */
  function Stringified(d: Dict): (r: Dict)
    ensures Keys(r) == Keys(d)
    ensures |r| == |d| && forall i :: 0 <= i < |d| ==> r[i] == (d[i].0, Str(Show(d[i].1)))
  {
    seq(|d|, i requires 0 <= i < |d| => (d[i].0, Str(Show(d[i].1))))
  }

  /** A written line reads back as its key and the value's string. */
  lemma PairOfEntry(kv: (string, Value))
    requires StorableEntry(kv)
    ensures PairOf(Entry(kv)) == Some((kv.0, Str(Show(kv.1))))
  {
    PairOfLine(kv.0, Show(kv.1));
  }

  lemma PairOfLine(k: string, v: string)
    requires '=' !in k && '=' !in v
    requires (k == [] || !IsSpace(k[0])) && (v == [] || !IsSpace(v[|v| - 1]))
    ensures PairOf(k + "=" + v + "\n") == Some((k, Str(v)))
  {
    var line := k + ['='] + v;
    assert line[0] == if k == [] then '=' else k[0];
    assert line[|line| - 1] == if v == [] then '=' else v[|v| - 1];
    StripNewlineTerminated(line);
    SplitTwo(k, '=', v);
  }

  lemma LineFree(kv: (string, Value), c: char)
    requires c != '=' && c !in kv.0 && c !in Show(kv.1)
    ensures c !in Line(kv) && (c != '\n' ==> c !in Entry(kv))
  {
  }

  lemma {:induction false} SerializedNoCarriageReturn(d: Dict)
    requires forall i :: 0 <= i < |d| ==> StorableEntry(d[i])
    ensures '\r' !in Serialize(d)
  {
    if d != [] {
      LineFree(d[0], '\r');
      SerializedNoCarriageReturn(d[1..]);
    }
  }

  /** The lines of the file `save_settings` writes are its entries. */
  lemma {:induction false} SerializedLines(d: Dict)
    requires forall i :: 0 <= i < |d| ==> StorableEntry(d[i])
    ensures Lines(Serialize(d)) == seq(|d|, i requires 0 <= i < |d| => Entry(d[i]))
  {
    if d != [] {
      var line := Line(d[0]);
      LineFree(d[0], '\n');
      SerializedLines(d[1..]);
      LinesPrefix(line, Serialize(d[1..]));
      assert Serialize(d) == line + "\n" + Serialize(d[1..]);
    }
  }

  /** Round trip: reading what `save_settings` wrote gives back the dict,
      every value as the string it was written as. */
  lemma RoundTrip(d: Dict)
    requires Storable(d)
    ensures ParseSettings(Serialize(d)) == Some(Stringified(d))
  {
    SerializedNoCarriageReturn(d);
    SerializedLines(d);
    var lines := Lines(Serialize(d));
    forall i | 0 <= i < |lines| ensures Assigns(lines[i]) && PairOf(lines[i]) == Some(Stringified(d)[i]) {
      assert '=' in Line(d[i]);
      PairOfEntry(d[i]);
    }
    FilterAll(lines, Assigns);
    var pairs := TryMap(lines, PairOf).value;
    assert pairs == Stringified(d);
    assert [] + pairs == pairs;
    UpdateFresh([], pairs);
  }

  // ------------------------------------------------- load_initial_settings

  const Themes: seq<string> := ["dark", "light", "midnight", "forest"]

  function Defaults(): Dict {
    [("window_position", Str("br")), ("window_size", Str("300,700")), ("theme", Str("dark"))]
  }

  lemma DefaultsDistinct()
    ensures Distinct(Keys(Defaults()))
  {
    var ks := Keys(Defaults());
    assert ks[0][0] == 'w' && ks[2][0] == 't';
    assert ks[0][7] != ks[1][7];
  }

  /** The outcome of `load_initial_settings`: the settings dict, the window
      size and the colour theme. */
  datatype Initial = Initial(settings: Dict, width: int, height: int, theme: string)

  /** `width, height = value.split(',')` then `int` of each; None when that
      raises. */
  function SizeOf(v: Value): (r: Option<(int, int)>)
    ensures r.Some? ==> v.Str? && |Split(v.s, ',')| == 2
  {
    match v
    case Num(_) => None
    case Str(s) =>
      var parts := Split(s, ',');
      if |parts| != 2 then None
      else
        match (ParseInt(parts[0]), ParseInt(parts[1]))
        case (Some(w), Some(h)) => Some((w, h))
        case _ => None
  }

  /** `COLORS[settings.get('theme', 'dark')]`: None for the `KeyError` of an
      unknown theme. */
  function ThemeOf(v: Option<Value>): (r: Option<string>)
    ensures r.Some? ==> r.value in Themes
  {
    match v
    case None => Some("dark")
    case Some(Str(s)) => if s in Themes then Some(s) else None
    case Some(Num(_)) => None
  }

  /** `load_initial_settings`: the file's entries over the defaults; the
      size from a saved `window_size`; any failure after the file is read
      (a malformed line, size or theme) falls back to the dark theme and
      300 by 700, keeping whatever entries were already merged. */
  function LoadInitialSettings(file: Option<string>): (r: Initial) {
    var saved := if file.None? then Some([]) else ParseSettings(file.value);
    if saved.None? then Initial(Defaults(), 300, 700, "dark")
    else
      var settings := Update(Defaults(), saved.value);
      var size := match Lookup(saved.value, "window_size")
        case None => Some((300, 700))
        case Some(v) => SizeOf(v);
      var theme := ThemeOf(Lookup(settings, "theme"));
      if size.None? || theme.None? then Initial(settings, 300, 700, "dark")
      else Initial(settings, size.value.0, size.value.1, theme.value)
  }

  /** The theme is one of the known ones; the settings hold every default
      key, each once; a missing file gives the defaults, the default size
      and the dark theme. */
  lemma InitialSettingsWellFormed(file: Option<string>)
    ensures var r := LoadInitialSettings(file);
      r.theme in Themes && Distinct(Keys(r.settings))
      && (forall k :: k in Keys(Defaults()) ==> k in Keys(r.settings))
      && (file.None? ==> r == Initial(Defaults(), 300, 700, "dark"))
  {
    DefaultsDistinct();
    var saved := if file.None? then Some([]) else ParseSettings(file.value);
    if saved.Some? {
      UpdateKeys(Defaults(), saved.value);
    }
  }

  /** Loading what was saved merges it over the defaults, every value read
      back as the string it was written as. */
  lemma LoadSaved(d: Dict)
    requires Storable(d)
    ensures LoadInitialSettings(Some(Serialize(d))).settings == Update(Defaults(), Stringified(d))
  {
    RoundTrip(d);
  }

  lemma NoComma(i: int)
    ensures ',' !in IntToString(i)
  {
    var s := NatToString(if i < 0 then -i else i);
    assert forall c :: c in s ==> IsDigit(c);
  }

  /** A size written as `f"{width},{height}"` reads back as that size. */
  lemma SizeRoundTrip(w: int, h: int)
    ensures SizeOf(Str(IntToString(w) + "," + IntToString(h))) == Some((w, h))
  {
    NoComma(w);
    NoComma(h);
    SplitTwo(IntToString(w), ',', IntToString(h));
    ParseIntToString(w);
    ParseIntToString(h);
  }

  // ------------------------------------------------ apply_window_position

  const Padding := 10
  const Positions: seq<string> := ["tr", "br", "bl", "tl", "custom"]

  /** Where the window goes, and the position name that is stored. */
  datatype Placement = Placement(position: string, x: int, y: int)

  /** `int(settings.get(key, 0))`: None for the `ValueError` of a string
      that is not an integer. */
  function Coordinate(settings: Dict, key: string): Option<int> {
    match Lookup(settings, key)
    case None => Some(0)
    case Some(Num(n)) => Some(n)
    case Some(Str(s)) => ParseInt(s)
  }

  /** `max(0, min(v, hi))` */
  function Clamp(v: int, hi: int): (r: int)
    ensures 0 <= r && (0 <= hi ==> r <= hi)
    ensures 0 <= v <= hi ==> r == v
  {
    if v < hi then (if v < 0 then 0 else v) else (if hi < 0 then 0 else hi)
  }

  /** The arithmetic of `apply_window_position` for a screen of
      `screenW` by `screenH` and a window of `w` by `h`: a corner at
      `Padding` from both edges, a custom position clamped onto the screen,
      bottom right for any other name; None when a custom coordinate is not
      an integer. */
  function Place(settings: Dict, position: string, screenW: int, screenH: int, w: int, h: int): (r: Option<Placement>)
    ensures r.None? <==> position == "custom" && (Coordinate(settings, "custom_x").None? || Coordinate(settings, "custom_y").None?)
    ensures r.Some? ==> r.value.position in Positions
    ensures r.Some? && position in Positions ==> r.value.position == position
    ensures r.Some? && position == "custom" ==>
      0 <= r.value.x && 0 <= r.value.y
      && (w <= screenW ==> r.value.x <= screenW - w) && (h <= screenH ==> r.value.y <= screenH - h)
  {
    var right, bottom := screenW - w - Padding, screenH - h - Padding;
    if position == "tr" then Some(Placement(position, right, Padding))
    else if position == "br" then Some(Placement(position, right, bottom))
    else if position == "bl" then Some(Placement(position, Padding, bottom))
    else if position == "tl" then Some(Placement(position, Padding, Padding))
    else if position == "custom" then
      match (Coordinate(settings, "custom_x"), Coordinate(settings, "custom_y"))
      case (Some(x), Some(y)) => Some(Placement(position, Clamp(x, screenW - w), Clamp(y, screenH - h)))
      case _ => None
    else Some(Placement("br", right, bottom))
  }

  /** An unknown position name is placed, and stored, as bottom right. */
  lemma UnknownFallsBack(settings: Dict, position: string, screenW: int, screenH: int, w: int, h: int)
    requires position !in Positions
    ensures Place(settings, position, screenW, screenH, w, h) == Place(settings, "br", screenW, screenH, w, h)
  {
    assert position != "tr" && position != "br" && position != "bl" && position != "tl" && position != "custom";
  }

  /** On a screen with room for the window and its padding, a corner keeps
      the window inside the screen, `Padding` away from the edges. */
  lemma CornersOnScreen(settings: Dict, position: string, screenW: int, screenH: int, w: int, h: int)
    requires position != "custom"
    requires w + 2 * Padding <= screenW && h + 2 * Padding <= screenH
    ensures var p := Place(settings, position, screenW, screenH, w, h).value;
      Padding <= p.x && p.x + w + Padding <= screenW && Padding <= p.y && p.y + h + Padding <= screenH
  {
  }

  /** The dict after `apply_window_position` stored a placement. */
  function Placed(settings: Dict, p: Placement): (r: Dict)
    ensures Lookup(r, "window_position") == Some(Str(p.position))
    ensures p.position == "custom" ==> Lookup(r, "custom_x") == Some(Num(p.x)) && Lookup(r, "custom_y") == Some(Num(p.y))
    ensures forall k :: k != "window_position" && k != "custom_x" && k != "custom_y" ==> Lookup(r, k) == Lookup(settings, k)
    ensures p.position != "custom" ==> forall k :: k != "window_position" ==> Lookup(r, k) == Lookup(settings, k)
  {
    var s := Put(settings, "window_position", Str(p.position));
    if p.position == "custom" then Put(Put(s, "custom_x", Num(p.x)), "custom_y", Num(p.y)) else s
  }

  /** The settings `apply_window_position` leaves: the placement stored;
      None when a custom coordinate is not an integer and nothing is
      stored. */
  function PlacedSettings(settings: Dict, position: string, screenW: int, screenH: int, w: int, h: int): Option<Dict> {
    match Place(settings, position, screenW, screenH, w, h)
    case None => None
    case Some(p) => Some(Placed(settings, p))
  }

  /** A custom placement is where the window comes back: placing it again
      from the stored coordinates, before or after they went through the
      settings file, gives the same placement. */
  lemma CustomStable(settings: Dict, screenW: int, screenH: int, w: int, h: int)
    requires Place(settings, "custom", screenW, screenH, w, h).Some?
    ensures var p := Place(settings, "custom", screenW, screenH, w, h).value;
      Place(Placed(settings, p), "custom", screenW, screenH, w, h) == Some(p)
  {
  }

  /** The stored custom placement survives a restart: the settings file
      written after it loads into settings that place the window at the
      same spot. */
  lemma RestartKeepsPlacement(settings: Dict, screenW: int, screenH: int, w: int, h: int)
    requires Place(settings, "custom", screenW, screenH, w, h).Some?
    requires Storable(Placed(settings, Place(settings, "custom", screenW, screenH, w, h).value))
    ensures var p := Place(settings, "custom", screenW, screenH, w, h).value;
      var reloaded := LoadInitialSettings(Some(Serialize(Placed(settings, p)))).settings;
      Place(reloaded, "custom", screenW, screenH, w, h) == Some(p)
  {
    var p := Place(settings, "custom", screenW, screenH, w, h).value;
    var d := Placed(settings, p);
    var reloaded := LoadInitialSettings(Some(Serialize(d))).settings;
    CustomStable(settings, screenW, screenH, w, h);
    ReloadedCoordinate(d, "custom_x", p.x);
    ReloadedCoordinate(d, "custom_y", p.y);
    SameCoordinatesSamePlace(d, reloaded, screenW, screenH, w, h);
  }

  /** A stored number is read back, after saving and loading, as the same
      coordinate. */
  lemma ReloadedCoordinate(d: Dict, k: string, n: int)
    requires Storable(d) && Lookup(d, k) == Some(Num(n))
    ensures Coordinate(LoadInitialSettings(Some(Serialize(d))).settings, k) == Some(n)
  {
    ReloadedLookup(d, k);
    ParseIntToString(n);
  }

  /** A custom placement depends on the settings only through the two
      coordinates. */
  lemma SameCoordinatesSamePlace(a: Dict, b: Dict, screenW: int, screenH: int, w: int, h: int)
    requires Coordinate(a, "custom_x") == Coordinate(b, "custom_x")
    requires Coordinate(a, "custom_y") == Coordinate(b, "custom_y")
    ensures Place(a, "custom", screenW, screenH, w, h) == Place(b, "custom", screenW, screenH, w, h)
  {
  }

  /** After saving and loading, a saved key holds the string its value was
      written as. */
  lemma ReloadedLookup(d: Dict, k: string)
    requires Storable(d) && k in Keys(d)
    ensures Lookup(LoadInitialSettings(Some(Serialize(d))).settings, k) == Some(Str(Show(Lookup(d, k).value)))
  {
    LoadSaved(d);
    StringifiedLookup(d, k);
    UpdateLookup(Defaults(), Stringified(d), k);
  }

  /** A key's value after loading is the string its value was written as. */
  lemma {:induction false} StringifiedLookup(d: Dict, k: string)
    ensures Lookup(Stringified(d), k) == match Lookup(d, k) case None => None case Some(v) => Some(Str(Show(v)))
  {
    if d != [] {
      var s := Stringified(d);
      assert s == [s[0]] + Stringified(d[1..]);
      StringifiedLookup(d[1..], k);
    }
  }
}
