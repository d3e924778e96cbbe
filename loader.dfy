/**
 * The decision logic of the data loader (`qlib/data/loader.py`): which
 * sources are tried and in which order, how a failing source is skipped or
 * recorded, and how a raw frame is cleaned into the OHLCV schema (flattened
 * column labels, a datetime index, the five required columns, ascending
 * dates, no missing values).
 *
 * Reading a CSV file or URL, importing yfinance, downloading and parsing
 * dates are not modelled as I/O: each becomes a parameter (the outcome of
 * `read_csv` for a path, the yfinance module if it is installed, the date
 * parser of `to_datetime`).
 */
module Loader {
  import opened Base
  import opened SeriesOps

  // ---------------------------------------------------------------------
  // Text.

  /** Python's `str.isspace` on one character (the characters `str.strip()` removes). */
  predicate IsSpace(c: char) {
    var n := c as int;
    (9 <= n <= 13) || (28 <= n <= 32) || n == 0x85 || n == 0xA0 || n == 0x1680
    || (0x2000 <= n <= 0x200A) || n == 0x2028 || n == 0x2029 || n == 0x202F
    || n == 0x205F || n == 0x3000
  }

  /** The number of whitespace characters `s` starts with. */
  function LeadingSpaces(s: string): (n: nat)
    ensures n <= |s|
    ensures forall k :: 0 <= k < n ==> IsSpace(s[k])
    ensures n < |s| ==> !IsSpace(s[n])
  {
    if s != [] && IsSpace(s[0]) then
      var n := LeadingSpaces(s[1..]);
      assert forall k :: 0 < k <= n ==> s[k] == s[1..][k - 1];
      1 + n
    else 0
  }

  /** The number of whitespace characters `s` ends with. */
  function TrailingSpaces(s: string): (n: nat)
    ensures n <= |s|
    ensures forall k :: |s| - n <= k < |s| ==> IsSpace(s[k])
    ensures n < |s| ==> !IsSpace(s[|s| - n - 1])
  {
    if s != [] && IsSpace(s[|s| - 1]) then
      var n := TrailingSpaces(s[..|s| - 1]);
      assert forall k :: |s| - 1 - n <= k < |s| - 1 ==> s[k] == s[..|s| - 1][k];
      1 + n
    else 0
  }

  /** `s.lstrip()`: the suffix left after the leading whitespace. */
  function StripStart(s: string): string {
    s[LeadingSpaces(s)..]
  }

  /** `s.rstrip()`: the prefix left before the trailing whitespace. */
  function StripEnd(s: string): string {
    s[..|s| - TrailingSpaces(s)]
  }

  /** `s.strip()`. */
  function Strip(s: string): string {
    StripEnd(StripStart(s))
  }

  /**
   * `strip` keeps a stretch of `s` that neither starts nor ends with
   * whitespace, and removes only whitespace around it.
   */
  lemma StripSpan(s: string) returns (i: nat, j: nat)
    ensures i <= j <= |s| && Strip(s) == s[i..j]
    ensures forall k :: 0 <= k < i ==> IsSpace(s[k])
    ensures forall k :: j <= k < |s| ==> IsSpace(s[k])
    ensures Strip(s) == [] || (!IsSpace(s[i]) && !IsSpace(s[j - 1]))
  {
    i := LeadingSpaces(s);
    var a := s[i..];
    var m := TrailingSpaces(a);
    j := |s| - m;
    assert s[i..][..|a| - m] == s[i..j];
    forall k | j <= k < |s| ensures IsSpace(s[k]) {
      assert s[k] == a[k - i];
    }
    if i < j {
      assert s[j - 1] == a[|a| - m - 1];
    }
  }

  /** `strip` gives the empty string exactly when `s` is all whitespace. */
  lemma StripEmpty(s: string)
    ensures Strip(s) == [] <==> forall k :: 0 <= k < |s| ==> IsSpace(s[k])
  {
    var i, j := StripSpan(s);
    if Strip(s) != [] {
      assert !IsSpace(s[i]);
    }
  }

  /** A text that neither starts nor ends with whitespace is its own `strip`. */
  lemma StripUnchanged(s: string)
    requires s == [] || (!IsSpace(s[0]) && !IsSpace(s[|s| - 1]))
    ensures Strip(s) == s
  {
    assert LeadingSpaces(s) == 0;
    assert s[0..] == s;
    assert TrailingSpaces(s) == 0;
    assert s[..|s|] == s;
  }

  /** Stripping twice is stripping once. */
  lemma StripIdempotent(s: string)
    ensures Strip(Strip(s)) == Strip(s)
  {
    var i, j := StripSpan(s);
    StripUnchanged(Strip(s));
  }

  /** `str.lower()` on ASCII letters; every other character is kept. */
  function LowerChar(c: char): (r: char)
    ensures 'A' <= c <= 'Z' ==> r as int == c as int + 32
    ensures !('A' <= c <= 'Z') ==> r == c
  {
    if 'A' <= c <= 'Z' then (c as int + 32) as char else c
  }

  function Lower(s: string): (r: string)
    ensures |r| == |s| && forall i :: 0 <= i < |s| ==> r[i] == LowerChar(s[i])
  {
    seq(|s|, i requires 0 <= i < |s| => LowerChar(s[i]))
  }

  /** Whether `sub` occurs in `s` starting at position `i`. */
  predicate OccursAt(s: string, sub: string, i: int) {
    0 <= i && i + |sub| <= |s| && s[i..i + |sub|] == sub
  }

  /** `sub in s` for strings. */
  predicate Contains(s: string, sub: string) {
    exists i :: 0 <= i <= |s| && OccursAt(s, sub, i)
  }

  // ---------------------------------------------------------------------
  // Column labels (`_first_non_empty_label`, `_flatten_columns`).

  /** A column label: a plain label, or the tuple of a multi-level label (`None` entries allowed). */
  datatype Label = Scalar(text: string) | Tuple(entries: seq<Option<string>>)

  /** Whether a tuple entry is skipped: it is `None`, or only whitespace. */
  predicate Blank(entry: Option<string>) {
    entry.None? || Strip(entry.value) == ""
  }

  /** The position of the first entry that is not blank; the length when every entry is. */
  function FirstNonBlank(entries: seq<Option<string>>): (k: nat)
    ensures k <= |entries|
    ensures forall j :: 0 <= j < k ==> Blank(entries[j])
    ensures k < |entries| ==> !Blank(entries[k])
  {
    if entries == [] || !Blank(entries[0]) then 0
    else
      var k := FirstNonBlank(entries[1..]);
      assert forall j :: 0 < j <= k ==> entries[j] == entries[1..][j - 1];
      1 + k
  }

  /**
   * The first entry that is not blank, stripped: `""` exactly when every
   * entry is blank.
   */
  function FirstNonEmpty(entries: seq<Option<string>>): (r: string)
    ensures r == "" <==> forall i :: 0 <= i < |entries| ==> Blank(entries[i])
    ensures r != "" ==> r == Strip(entries[FirstNonBlank(entries)].value)
  {
    var k := FirstNonBlank(entries);
    if k < |entries| then Strip(entries[k].value) else ""
  }

  /** `_first_non_empty_label`: a tuple gives its first non-blank entry, any other label its text. */
  function FirstNonEmptyLabel(heading: Label): string {
    match heading
    case Scalar(text) => text
    case Tuple(entries) => FirstNonEmpty(entries)
  }

  /**
   * The label of a tuple is canonical: already stripped, and never the text
   * of a blank entry. A plain label comes back unchanged.
   */
  lemma FirstNonEmptyLabelStripped(heading: Label)
    ensures heading.Scalar? ==> FirstNonEmptyLabel(heading) == heading.text
    ensures heading.Tuple? ==> Strip(FirstNonEmptyLabel(heading)) == FirstNonEmptyLabel(heading)
  {
    if heading.Tuple? && FirstNonEmpty(heading.entries) != "" {
      StripIdempotent(heading.entries[FirstNonBlank(heading.entries)].value);
    }
  }

  // ---------------------------------------------------------------------
  // Frames.

  /** A cell: `None` is a missing value (NaN or NaT), `Some(text)` any other value, as text. */
  type Cell = Option<string>

  /** A row of cells, one per column. */
  type Row = seq<Cell>

  /** The column header of a frame: plain names, or the tuples of a `MultiIndex`. */
  datatype Header = Flat(names: seq<string>) | Multi(labels: seq<seq<Option<string>>>)

  /** The number of columns a header names. */
  function Width(h: Header): nat {
    match h
    case Flat(names) => |names|
    case Multi(labels) => |labels|
  }

  /** A data frame as a source hands it over: index name and values, header, rows. */
  datatype RawFrame = RawFrame(indexName: Option<string>, index: seq<Cell>, header: Header, rows: seq<Row>)

  /** One index value per row and one cell per column in every row, as in any data frame. */
  predicate Rectangular(f: RawFrame) {
    |f.index| == |f.rows| && forall i :: 0 <= i < |f.rows| ==> |f.rows[i]| == Width(f.header)
  }

  type Frame = f: RawFrame | Rectangular(f) witness RawFrame(None, [], Flat([]), [])

  /** `frame.empty`: no rows or no columns. */
  predicate Empty(f: Frame) {
    |f.rows| == 0 || Width(f.header) == 0
  }

  /** A frame whose columns have plain names. */
  datatype Table = Table(indexName: Option<string>, index: seq<Cell>, columns: seq<string>, rows: seq<Row>)

  predicate TableShaped(t: Table) {
    |t.index| == |t.rows| && forall i :: 0 <= i < |t.rows| ==> |t.rows[i]| == |t.columns|
  }

  /**
   * `_flatten_columns`: multi-level labels are replaced by their first
   * non-blank entry; plain names, the index and the rows are kept.
   */
  function FlattenColumns(f: Frame): (r: Table)
    ensures TableShaped(r)
    ensures r.indexName == f.indexName && r.index == f.index && r.rows == f.rows
    ensures |r.columns| == Width(f.header)
    ensures f.header.Flat? ==> r.columns == f.header.names
    ensures f.header.Multi? ==> forall j :: 0 <= j < |r.columns| ==>
              r.columns[j] == FirstNonEmptyLabel(Tuple(f.header.labels[j]))
  {
    match f.header
    case Flat(names) => Table(f.indexName, f.index, names, f.rows)
    case Multi(labels) =>
      var names := seq(|labels|, j requires 0 <= j < |labels| => FirstNonEmptyLabel(Tuple(labels[j])));
      Table(f.indexName, f.index, names, f.rows)
  }

  /** Flattening a multi-level header gives names already stripped. */
  lemma FlattenedNamesStripped(f: Frame)
    requires f.header.Multi?
    ensures forall j :: 0 <= j < |FlattenColumns(f).columns| ==>
              Strip(FlattenColumns(f).columns[j]) == FlattenColumns(f).columns[j]
  {
    forall j | 0 <= j < |FlattenColumns(f).columns| {
      FirstNonEmptyLabelStripped(Tuple(f.header.labels[j]));
    }
  }

  // ---------------------------------------------------------------------
  // The datetime index (`_ensure_datetime_index`).

  /** The parser `to_datetime` applies to one value: a timestamp, or the message of the `ValueError` it raises. */
  type DateParser = string -> Result<int, string>

  /**
   * `pd.to_datetime` on a column: a missing value becomes NaT (`None`), and
   * the first value the parser rejects raises its `ValueError`.
   */
  function ToDatetime(cells: seq<Cell>, parse: DateParser): (r: Result<seq<Option<int>>, Error>)
    ensures r.Ok? <==> forall i :: 0 <= i < |cells| && cells[i].Some? ==> parse(cells[i].value).Ok?
    ensures r.Ok? ==> |r.value| == |cells| && forall i :: 0 <= i < |cells| ==>
              r.value[i] == if cells[i].None? then None else Some(parse(cells[i].value).value)
    ensures r.Err? ==> exists i :: (0 <= i < |cells| && cells[i].Some? && parse(cells[i].value).Err?
              && r.error == ValueError(parse(cells[i].value).error)
              && forall k :: 0 <= k < i ==> cells[k].None? || parse(cells[k].value).Ok?)
  {
    if cells == [] then Ok([])
    else
      assert forall i :: 0 < i < |cells| ==> cells[i] == cells[1..][i - 1];
      var head := if cells[0].None? then Ok(None) else
        match parse(cells[0].value)
        case Ok(t) => Ok(Some(t))
        case Err(m) => Err(ValueError(m));
      match head
      case Err(e) => Err(e)
      case Ok(h) =>
        match ToDatetime(cells[1..], parse)
        case Err(e) => Err(e)
        case Ok(rest) => Ok([h] + rest)
  }

  /** Where the datetime index comes from: the index itself, or the column at a position. */
  datatype DateSource = FromIndex | FromColumn(position: nat)

  /** The position of the first name satisfying `p`, if any. */
  function FindName(names: seq<string>, p: string -> bool): (r: Option<nat>)
    ensures r.None? <==> forall j :: 0 <= j < |names| ==> !p(names[j])
    ensures r.Some? ==> (r.value < |names| && p(names[r.value])
              && forall j :: 0 <= j < r.value ==> !p(names[j]))
  {
    if names == [] then None
    else if p(names[0]) then Some(0)
    else
      assert forall j :: 0 < j < |names| ==> names[j] == names[1..][j - 1];
      match FindName(names[1..], p)
      case None => None
      case Some(j) => Some(j + 1)
  }

  /** Whether a column name mentions a date: `"date" in name.lower()`. */
  predicate MentionsDate(name: string) {
    Contains(Lower(name), "date")
  }

  /**
   * The choice `_ensure_datetime_index` makes, in priority order: an index
   * named `"datetime"`, else the first column named exactly `"datetime"`,
   * else the first column whose lower-cased name contains `"date"`, else none.
   */
  function ChooseDateSource(t: Table): (r: Option<DateSource>)
    ensures r == Some(FromIndex) <==> t.indexName == Some("datetime")
    ensures r.None? <==> (t.indexName != Some("datetime") && "datetime" !in t.columns
              && forall j :: 0 <= j < |t.columns| ==> !MentionsDate(t.columns[j]))
    ensures r.Some? && r.value.FromColumn? ==> var j := r.value.position;
              j < |t.columns| && t.indexName != Some("datetime")
              && if "datetime" in t.columns
                 then t.columns[j] == "datetime" && "datetime" !in t.columns[..j]
                 else MentionsDate(t.columns[j]) && forall k :: 0 <= k < j ==> !MentionsDate(t.columns[k])
  {
    if t.indexName == Some("datetime") then Some(FromIndex)
    else
      match FindName(t.columns, name => name == "datetime")
      case Some(j) => Some(FromColumn(j))
      case None =>
        match FindName(t.columns, MentionsDate)
        case Some(j) => Some(FromColumn(j))
        case None => None
  }

  /** The values of column `j`. */
  function Column(rows: seq<Row>, j: nat): (r: seq<Cell>)
    requires forall i :: 0 <= i < |rows| ==> j < |rows[i]|
    ensures |r| == |rows| && forall i :: 0 <= i < |rows| ==> r[i] == rows[i][j]
  {
    seq(|rows|, i requires 0 <= i < |rows| => rows[i][j])
  }

  /** A sequence without its element at position `j`. */
  function Without<T>(s: seq<T>, j: nat): (r: seq<T>)
    requires j < |s|
    ensures |r| == |s| - 1
    ensures forall k :: 0 <= k < j ==> r[k] == s[k]
    ensures forall k :: j <= k < |r| ==> r[k] == s[k + 1]
  {
    s[..j] + s[j + 1..]
  }

  /** A row with its timestamp: `None` is NaT. */
  type Entry = (Option<int>, Row)

  /** A frame indexed by datetime (the index is named `"datetime"`): columns and timestamped rows. */
  datatype Indexed = Indexed(columns: seq<string>, entries: seq<Entry>)

  predicate IndexedShaped(d: Indexed) {
    forall i :: 0 <= i < |d.entries| ==> |d.entries[i].1| == |d.columns|
  }

  /** Rows paired with their timestamps. */
  function Pair(stamps: seq<Option<int>>, rows: seq<Row>): (r: seq<Entry>)
    requires |stamps| == |rows|
    ensures |r| == |rows| && forall i :: 0 <= i < |rows| ==> r[i] == (stamps[i], rows[i])
  {
    seq(|rows|, i requires 0 <= i < |rows| => (stamps[i], rows[i]))
  }

  const NoDatetimeMessage: string := "Data frame must include a datetime column or index."

  /**
   * `_ensure_datetime_index`. From the index, the columns stay as they are;
   * from a `"datetime"` column, that column moves into the index; from a
   * date-like column, the column stays and a parsed copy becomes the index.
   * Without a source it raises `ValueError`, and a value the parser rejects
   * raises the parser's `ValueError`.
   */
  function EnsureDatetimeIndex(t: Table, parse: DateParser): (r: Result<Indexed, Error>)
    requires TableShaped(t)
    ensures ChooseDateSource(t).None? ==> r == Err(ValueError(NoDatetimeMessage))
    ensures r.Ok? ==> IndexedShaped(r.value) && |r.value.entries| == |t.rows|
    ensures ChooseDateSource(t) == Some(FromIndex) ==>
              (r.Ok? <==> ToDatetime(t.index, parse).Ok?) &&
              (r.Ok? ==> r.value == Indexed(t.columns, Pair(ToDatetime(t.index, parse).value, t.rows)))
    ensures ChooseDateSource(t).Some? && ChooseDateSource(t).value.FromColumn? ==>
              var j := ChooseDateSource(t).value.position;
              var stamps := ToDatetime(Column(t.rows, j), parse);
              (r.Ok? <==> stamps.Ok?) &&
              (r.Ok? && t.columns[j] == "datetime" ==>
                 r.value.columns == Without(t.columns, j) &&
                 forall i :: 0 <= i < |t.rows| ==> r.value.entries[i] == (stamps.value[i], Without(t.rows[i], j))) &&
              (r.Ok? && t.columns[j] != "datetime" ==>
                 r.value == Indexed(t.columns, Pair(stamps.value, t.rows)))
  {
    match ChooseDateSource(t)
    case None => Err(ValueError(NoDatetimeMessage))
    case Some(FromIndex) =>
      (match ToDatetime(t.index, parse)
       case Err(e) => Err(e)
       case Ok(stamps) => Ok(Indexed(t.columns, Pair(stamps, t.rows))))
    case Some(FromColumn(j)) =>
      match ToDatetime(Column(t.rows, j), parse)
      case Err(e) => Err(e)
      case Ok(stamps) =>
        if t.columns[j] == "datetime" then
          var rows := seq(|t.rows|, i requires 0 <= i < |t.rows| => Without(t.rows[i], j));
          Ok(Indexed(Without(t.columns, j), Pair(stamps, rows)))
        else Ok(Indexed(t.columns, Pair(stamps, t.rows)))
  }

  // ---------------------------------------------------------------------
  // The OHLCV schema (`_standardize_columns`).

  const RequiredColumns: seq<string> := ["open", "high", "low", "close", "volume"]

  /** A column name as `_standardize_columns` compares it: stripped and lower-cased. */
  function Normalize(name: string): string {
    Lower(Strip(name))
  }

  /** The normalized names of the columns. */
  function NormalizedNames(columns: seq<string>): (r: seq<string>)
    ensures |r| == |columns| && forall j :: 0 <= j < |columns| ==> r[j] == Normalize(columns[j])
  {
    seq(|columns|, j requires 0 <= j < |columns| => Normalize(columns[j]))
  }

  /** The keys that are not among the names, in the order of the keys. */
  function MissingNames(keys: seq<string>, names: seq<string>): (r: seq<string>)
    ensures |r| <= |keys|
    ensures forall x :: x in r <==> x in keys && x !in names
    ensures r == [] <==> forall x :: x in keys ==> x in names
  {
    if keys == [] then []
    else (if keys[0] in names then [] else [keys[0]]) + MissingNames(keys[1..], names)
  }

  /** Python's text for a list of strings: `['open', 'high']`. */
  function PyList(items: seq<string>): string {
    "[" + QuotedItems(items) + "]"
  }

  function QuotedItems(items: seq<string>): string {
    if items == [] then ""
    else if |items| == 1 then "'" + items[0] + "'"
    else "'" + items[0] + "', " + QuotedItems(items[1..])
  }

  /** The positions from `from` on whose name is `key`, in increasing order. */
  function Matches(names: seq<string>, key: string, from: nat): (r: seq<nat>)
    requires from <= |names|
    ensures forall k :: 0 <= k < |r| ==> from <= r[k] < |names| && names[r[k]] == key
    ensures forall j :: from <= j < |names| && names[j] == key ==> j in r
    ensures forall k, l :: 0 <= k < l < |r| ==> r[k] < r[l]
    decreases |names| - from
  {
    if from == |names| then []
    else (if names[from] == key then [from] else []) + Matches(names, key, from + 1)
  }

  /** `normalized[keys]`: for each key in order, every position holding it. */
  function Selection(names: seq<string>, keys: seq<string>): (r: seq<nat>)
    ensures forall k :: 0 <= k < |r| ==> r[k] < |names| && names[r[k]] in keys
  {
    if keys == [] then [] else Matches(names, keys[0], 0) + Selection(names, keys[1..])
  }

  /** The cells of a row at the selected positions. */
  function Project(row: Row, positions: seq<nat>): (r: Row)
    requires forall k :: 0 <= k < |positions| ==> positions[k] < |row|
    ensures |r| == |positions| && forall k :: 0 <= k < |positions| ==> r[k] == row[positions[k]]
  {
    seq(|positions|, k requires 0 <= k < |positions| => row[positions[k]])
  }

  function MissingMessage(missing: seq<string>): string {
    "Missing required OHLCV columns: " + PyList(missing)
  }

  /**
   * `_standardize_columns`: the names are stripped and lower-cased; if a
   * required name is absent the call raises `ValueError` listing the absent
   * names in schema order; otherwise only the required columns are kept, in
   * schema order, with the rows and timestamps they belong to.
   */
  function StandardizeColumns(d: Indexed): (r: Result<Indexed, Error>)
    requires IndexedShaped(d)
    ensures var missing := MissingNames(RequiredColumns, NormalizedNames(d.columns));
            (r.Err? <==> missing != []) && (r.Err? ==> r.error == ValueError(MissingMessage(missing)))
    ensures r.Ok? ==> IndexedShaped(r.value) && |r.value.entries| == |d.entries|
    ensures r.Ok? ==> forall k :: 0 <= k < |r.value.columns| ==> r.value.columns[k] in RequiredColumns
    ensures r.Ok? ==> HasColumns(r.value, RequiredColumns)
    ensures r.Ok? ==> forall i :: 0 <= i < |d.entries| ==> r.value.entries[i].0 == d.entries[i].0
    ensures r.Ok? ==> forall i :: 0 <= i < |d.entries| ==>
              r.value.entries[i].1 == Project(d.entries[i].1, Selection(NormalizedNames(d.columns), RequiredColumns))
  {
    var normalized := NormalizedNames(d.columns);
    var missing := MissingNames(RequiredColumns, normalized);
    if missing != [] then Err(ValueError(MissingMessage(missing)))
    else
      SelectCovers(d.entries, normalized, RequiredColumns);
      Ok(Select(d.entries, normalized, Selection(normalized, RequiredColumns)))
  }

  /** Every one of `keys` names a column of `d`. */
  predicate HasColumns(d: Indexed, keys: seq<string>) {
    forall x :: x in keys ==> x in d.columns
  }

  /** Some position among `positions` holds the name `x`. */
  predicate Picks(names: seq<string>, positions: seq<nat>, x: string) {
    exists k :: 0 <= k < |positions| && positions[k] < |names| && names[positions[k]] == x
  }

  /** Every key present among the names is selected at some position holding it. */
  lemma {:induction false} SelectionCovers(names: seq<string>, keys: seq<string>)
    requires forall x :: x in keys ==> x in names
    ensures forall x :: x in keys ==> Picks(names, Selection(names, keys), x)
  {
    if keys != [] {
      var rest := keys[1..];
      assert forall x :: x in rest ==> x in keys;
      SelectionCovers(names, rest);
      var head := Matches(names, keys[0], 0);
      var tail := Selection(names, rest);
      assert Selection(names, keys) == head + tail;
      MatchesPick(names, keys[0]);
      forall x | x in keys ensures Picks(names, head + tail, x) {
        PicksAppend(names, head, tail, x);
      }
    }
  }

  /** A name present among the names is picked by its matches. */
  lemma MatchesPick(names: seq<string>, key: string)
    requires key in names
    ensures Picks(names, Matches(names, key, 0), key)
  {
    var j :| 0 <= j < |names| && names[j] == key;
    var head := Matches(names, key, 0);
    var k :| 0 <= k < |head| && head[k] == j;
  }

  /** A name picked by either part is picked by their concatenation. */
  lemma PicksAppend(names: seq<string>, a: seq<nat>, b: seq<nat>, x: string)
    requires Picks(names, a, x) || Picks(names, b, x)
    ensures Picks(names, a + b, x)
  {
    if Picks(names, a, x) {
      var k :| 0 <= k < |a| && a[k] < |names| && names[a[k]] == x;
      assert (a + b)[k] == a[k];
    } else {
      var k :| 0 <= k < |b| && b[k] < |names| && names[b[k]] == x;
      assert (a + b)[|a| + k] == b[k];
    }
  }

  /** Selecting every position of each key present gives a frame holding every key, with the selected cells. */
  lemma SelectCovers(entries: seq<Entry>, names: seq<string>, keys: seq<string>)
    requires forall i :: 0 <= i < |entries| ==> |entries[i].1| == |names|
    requires forall x :: x in keys ==> x in names
    ensures HasColumns(Select(entries, names, Selection(names, keys)), keys)
  {
    var positions := Selection(names, keys);
    var columns := Select(entries, names, positions).columns;
    SelectionCovers(names, keys);
    forall x | x in keys ensures x in columns {
      assert Picks(names, positions, x);
      var k :| 0 <= k < |positions| && positions[k] < |names| && names[positions[k]] == x;
      assert columns[k] == x;
    }
  }

  /** The frame made of the columns at `positions`, with the names given. */
  function Select(entries: seq<Entry>, names: seq<string>, positions: seq<nat>): (r: Indexed)
    requires forall i :: 0 <= i < |entries| ==> |entries[i].1| == |names|
    requires forall k :: 0 <= k < |positions| ==> positions[k] < |names|
    ensures IndexedShaped(r) && |r.entries| == |entries| && |r.columns| == |positions|
    ensures forall k :: 0 <= k < |positions| ==> r.columns[k] == names[positions[k]]
    ensures forall i :: 0 <= i < |entries| ==> r.entries[i] == (entries[i].0, Project(entries[i].1, positions))
  {
    var columns := seq(|positions|, k requires 0 <= k < |positions| => names[positions[k]]);
    Indexed(columns, seq(|entries|, i requires 0 <= i < |entries| => (entries[i].0, Project(entries[i].1, positions))))
  }

  /** Whether `key` names exactly one of the columns. */
  predicate OccursOnce(names: seq<string>, key: string) {
    exists j :: 0 <= j < |names| && names[j] == key && forall k :: 0 <= k < |names| && names[k] == key ==> k == j
  }

  /** A key held by one column is selected at exactly that column. */
  lemma {:induction false} MatchesOnce(names: seq<string>, key: string, from: nat, j: nat)
    requires from <= j < |names| && names[j] == key
    requires forall k :: from <= k < |names| && names[k] == key ==> k == j
    ensures Matches(names, key, from) == [j]
    decreases |names| - from
  {
    if from < j {
      MatchesOnce(names, key, from + 1, j);
    } else {
      NoMatches(names, key, from + 1);
    }
  }

  lemma {:induction false} NoMatches(names: seq<string>, key: string, from: nat)
    requires from <= |names|
    requires forall k :: from <= k < |names| ==> names[k] != key
    ensures Matches(names, key, from) == []
    decreases |names| - from
  {
    if from < |names| {
      NoMatches(names, key, from + 1);
    }
  }

  /** When every key names exactly one column, the selection picks those columns in key order. */
  lemma {:induction false} SelectionOnce(names: seq<string>, keys: seq<string>)
    requires forall x :: x in keys ==> OccursOnce(names, x)
    ensures |Selection(names, keys)| == |keys|
    ensures forall k :: 0 <= k < |keys| ==> names[Selection(names, keys)[k]] == keys[k]
  {
    if keys != [] {
      assert OccursOnce(names, keys[0]);
      var j :| 0 <= j < |names| && names[j] == keys[0]
               && forall k :: 0 <= k < |names| && names[k] == keys[0] ==> k == j;
      MatchesOnce(names, keys[0], 0, j);
      var rest := keys[1..];
      assert forall x :: x in rest ==> x in keys;
      SelectionOnce(names, rest);
      PicksInOrder(names, keys, j, Selection(names, rest));
    }
  }

  /** Picking `j` for the first key and `tail` for the rest picks every key in order. */
  lemma PicksInOrder(names: seq<string>, keys: seq<string>, j: nat, tail: seq<nat>)
    requires keys != [] && j < |names| && names[j] == keys[0] && |tail| == |keys| - 1
    requires forall k :: 0 <= k < |tail| ==> tail[k] < |names| && names[tail[k]] == keys[1..][k]
    ensures forall k :: 0 <= k < |keys| ==> ([j] + tail)[k] < |names| && names[([j] + tail)[k]] == keys[k]
  {
    forall k | 0 < k < |keys| ensures names[([j] + tail)[k]] == keys[k] {
      assert ([j] + tail)[k] == tail[k - 1];
    }
  }

  /**
   * When each required name is held by exactly one normalized column, the
   * result has exactly the columns `open, high, low, close, volume`.
   */
  lemma StandardizedSchema(d: Indexed)
    requires IndexedShaped(d)
    requires forall x :: x in RequiredColumns ==> OccursOnce(NormalizedNames(d.columns), x)
    ensures StandardizeColumns(d).Ok? && StandardizeColumns(d).value.columns == RequiredColumns
  {
    var normalized := NormalizedNames(d.columns);
    AllPresent(normalized);
    SelectedColumns(d.entries, normalized, RequiredColumns);
  }

  /** Selecting keys that are each held once gives exactly the keys, in their order, as columns. */
  lemma SelectedColumns(entries: seq<Entry>, normalized: seq<string>, keys: seq<string>)
    requires forall i :: 0 <= i < |entries| ==> |entries[i].1| == |normalized|
    requires forall x :: x in keys ==> OccursOnce(normalized, x)
    ensures Select(entries, normalized, Selection(normalized, keys)).columns == keys
  {
    var positions := Selection(normalized, keys);
    SelectionOnce(normalized, keys);
    var columns := Select(entries, normalized, positions).columns;
    assert |columns| == |keys|;
    assert forall k :: 0 <= k < |columns| ==> columns[k] == keys[k];
  }

  lemma AllPresent(normalized: seq<string>)
    requires forall x :: x in RequiredColumns ==> OccursOnce(normalized, x)
    ensures MissingNames(RequiredColumns, normalized) == []
  {
    forall x | x in RequiredColumns ensures x in normalized {
      assert OccursOnce(normalized, x);
    }
  }

  // ---------------------------------------------------------------------
  // Sorting by date and dropping incomplete rows (`_sort_by_date`, `_drop_nas`).

  /**
   * Timestamps in ascending order with every NaT after every defined
   * timestamp (`sort_index` puts NaT last).
   */
  predicate DatesAscending(entries: seq<Entry>) {
    forall i, j :: 0 <= i < j < |entries| && entries[j].0.Some? ==>
      entries[i].0.Some? && entries[i].0.value <= entries[j].0.value
  }

  /** A key above every defined timestamp, standing for NaT. */
  function Latest(entries: seq<Entry>): (r: int)
    ensures forall i :: 0 <= i < |entries| && entries[i].0.Some? ==> entries[i].0.value < r
  {
    if entries == [] then 0
    else
      var rest := Latest(entries[1..]);
      assert forall i :: 0 < i < |entries| ==> entries[i] == entries[1..][i - 1];
      match entries[0].0
      case None => rest
      case Some(t) => if t + 1 > rest then t + 1 else rest
  }

  /** Each entry keyed by its timestamp, NaT keyed by `latest`. */
  function Keyed(entries: seq<Entry>, latest: int): (r: seq<(int, Entry)>)
    ensures |r| == |entries| && Payloads(r) == entries
    ensures forall i :: 0 <= i < |entries| ==>
              r[i] == (if entries[i].0.Some? then entries[i].0.value else latest, entries[i])
  {
    seq(|entries|, i requires 0 <= i < |entries| =>
      (if entries[i].0.Some? then entries[i].0.value else latest, entries[i]))
  }

  /** `_sort_by_date`: the same entries, by ascending timestamp, NaT last. */
  function SortByDate(d: Indexed): (r: Indexed)
    ensures r.columns == d.columns
    ensures multiset(r.entries) == multiset(d.entries)
    ensures DatesAscending(r.entries)
    ensures IndexedShaped(d) ==> IndexedShaped(r)
  {
    var latest := Latest(d.entries);
    var keyed := Keyed(d.entries, latest);
    var sorted := SortByKey(keyed);
    SortByKeyCorrect(keyed);
    SortByKeyPayloads(keyed);
    SortedDates(sorted, d.entries, latest);
    SameEntriesShaped(d.entries, Payloads(sorted), |d.columns|);
    Indexed(d.columns, Payloads(sorted))
  }

  /** Entries rearranged keep the widths of their rows. */
  lemma SameEntriesShaped(a: seq<Entry>, b: seq<Entry>, width: nat)
    requires multiset(a) == multiset(b)
    ensures (forall i :: 0 <= i < |a| ==> |a[i].1| == width) ==> forall i :: 0 <= i < |b| ==> |b[i].1| == width
  {
    forall i | 0 <= i < |b| ensures b[i] in a {
      assert b[i] in multiset(b);
    }
  }

  /** Pairs sorted by key, each keyed as `Keyed` keys it, carry their timestamps in order. */
  lemma SortedDates(sorted: seq<(int, Entry)>, entries: seq<Entry>, latest: int)
    requires SortedByKey(sorted)
    requires multiset(sorted) == multiset(Keyed(entries, latest))
    requires forall i :: 0 <= i < |entries| && entries[i].0.Some? ==> entries[i].0.value < latest
    ensures DatesAscending(Payloads(sorted))
  {
    var keyed := Keyed(entries, latest);
    forall k | 0 <= k < |sorted|
      ensures sorted[k].0 == (if sorted[k].1.0.Some? then sorted[k].1.0.value else latest)
      ensures sorted[k].1.0.Some? ==> sorted[k].1.0.value < latest
    {
      assert sorted[k] in multiset(keyed);
      var i :| 0 <= i < |keyed| && keyed[i] == sorted[k];
    }
  }

  /** Whether a row has no missing value. */
  predicate Complete(row: Row) {
    forall c :: c in row ==> c.Some?
  }

  /** `_drop_nas`: the entries whose row has no missing value, in order (the index is not looked at). */
  function DropNas(entries: seq<Entry>): (r: seq<Entry>)
    ensures |r| <= |entries|
    ensures forall x :: multiset(r)[x] == if Complete(x.1) then multiset(entries)[x] else 0
  {
    if entries == [] then []
    else
      assert entries == [entries[0]] + entries[1..];
      (if Complete(entries[0].1) then [entries[0]] else []) + DropNas(entries[1..])
  }

  /** Dropping rows keeps the timestamps in order. */
  lemma {:induction false} DropNasAscending(entries: seq<Entry>)
    requires DatesAscending(entries)
    ensures DatesAscending(DropNas(entries))
  {
    if entries != [] {
      var tail := entries[1..];
      AscendingTail(entries);
      DropNasAscending(tail);
      var rest := DropNas(tail);
      if Complete(entries[0].1) {
        forall k | 0 <= k < |rest| && rest[k].0.Some?
          ensures entries[0].0.Some? && entries[0].0.value <= rest[k].0.value
        {
          assert rest[k] in multiset(rest);
          var i :| 0 <= i < |tail| && tail[i] == rest[k];
          assert entries[i + 1] == rest[k];
        }
        ConsAscending(entries[0], rest);
      }
    }
  }

  /** The entries after the first of an ascending sequence are ascending. */
  lemma AscendingTail(entries: seq<Entry>)
    requires entries != [] && DatesAscending(entries)
    ensures DatesAscending(entries[1..])
  {
    forall i, j | 0 <= i < j < |entries| - 1 && entries[1..][j].0.Some?
      ensures entries[1..][i].0.Some? && entries[1..][i].0.value <= entries[1..][j].0.value
    {
      assert entries[1..][i] == entries[i + 1] && entries[1..][j] == entries[j + 1];
    }
  }

  /** An entry no later than every timestamp of an ascending sequence can go in front of it. */
  lemma ConsAscending(e: Entry, rest: seq<Entry>)
    requires DatesAscending(rest)
    requires forall k :: 0 <= k < |rest| && rest[k].0.Some? ==> e.0.Some? && e.0.value <= rest[k].0.value
    ensures DatesAscending([e] + rest)
  {
    var s := [e] + rest;
    forall i, j | 0 <= i < j < |s| && s[j].0.Some? ensures s[i].0.Some? && s[i].0.value <= s[j].0.value {
      assert s[j] == rest[j - 1];
      if i > 0 {
        assert s[i] == rest[i - 1];
      }
    }
  }

  // ---------------------------------------------------------------------
  // `_clean`.

  /**
   * `_clean`: flatten the labels, then set the datetime index, then keep the
   * OHLCV columns, then sort by date, then drop incomplete rows. A frame
   * that comes out has only schema columns, no missing value, and its
   * timestamps ascending with NaT last; every failure is a `ValueError`.
   */
  function Clean(f: Frame, parse: DateParser): (r: Result<Indexed, Error>)
    ensures r.Err? ==> r.error.ValueError?
    ensures r.Ok? ==> IndexedShaped(r.value)
    ensures r.Ok? ==> forall k :: 0 <= k < |r.value.columns| ==> r.value.columns[k] in RequiredColumns
    ensures r.Ok? ==> HasColumns(r.value, RequiredColumns)
    ensures r.Ok? ==> forall i :: 0 <= i < |r.value.entries| ==> Complete(r.value.entries[i].1)
    ensures r.Ok? ==> DatesAscending(r.value.entries)
  {
    match EnsureDatetimeIndex(FlattenColumns(f), parse)
    case Err(e) => Err(e)
    case Ok(d) =>
      match StandardizeColumns(d)
      case Err(e) => Err(e)
      case Ok(s) =>
        var sorted := SortByDate(s);
        assert IndexedShaped(sorted);
        DropNasAscending(sorted.entries);
        var kept := DropNas(sorted.entries);
        KeptShaped(sorted, kept);
        Ok(Indexed(s.columns, kept))
  }

  /** Rows dropped from a well-shaped frame leave complete rows of the same width. */
  lemma KeptShaped(d: Indexed, kept: seq<Entry>)
    requires forall x :: multiset(kept)[x] == if Complete(x.1) then multiset(d.entries)[x] else 0
    ensures forall i :: 0 <= i < |kept| ==> Complete(kept[i].1)
    ensures IndexedShaped(d) ==> forall i :: 0 <= i < |kept| ==> |kept[i].1| == |d.columns|
  {
    forall i | 0 <= i < |kept|
      ensures Complete(kept[i].1)
      ensures IndexedShaped(d) ==> |kept[i].1| == |d.columns|
    {
      assert kept[i] in multiset(kept);
      assert kept[i] in multiset(d.entries);
    }
  }

  // ---------------------------------------------------------------------
  // The sources (`_read_csv_source`, `_from_yfinance`).

  /** What `pd.read_csv` does with a path or URL. */
  datatype CsvOutcome =
    | Unreadable            // it raises FileNotFoundError, OSError, ParserError or EmptyDataError
    | Raises(error: Error)  // it raises anything else
    | Parsed(frame: Frame)

  /**
   * `_read_csv_source`: no frame when the source cannot be read or parsed
   * or the frame is empty; the frame otherwise; any other exception escapes.
   */
  function ReadCsvSource(outcome: CsvOutcome): (r: Result<Option<Frame>, Error>)
    ensures r == Ok(None) <==> outcome.Unreadable? || (outcome.Parsed? && Empty(outcome.frame))
    ensures r.Ok? && r.value.Some? <==> outcome.Parsed? && !Empty(outcome.frame)
    ensures r.Ok? && r.value.Some? ==> r.value.value == outcome.frame
    ensures r.Err? <==> outcome.Raises?
    ensures r.Err? ==> r.error == outcome.error
  {
    match outcome
    case Unreadable => Ok(None)
    case Raises(e) => Err(e)
    case Parsed(frame) => if Empty(frame) then Ok(None) else Ok(Some(frame))
  }

  /**
   * The yfinance module: not installed, or installed with its
   * `download(symbol, start, end)`, which returns a frame or raises.
   */
  datatype YFinance = NotInstalled | Installed(download: (string, Option<string>, Option<string>) -> Result<Frame, Error>)

  const YFinanceMessage: string := "yfinance is required to fetch data via the yfinance fallback."

  /** The decimal text of a natural number (the labels of a `RangeIndex`). */
  function NatText(n: nat): (r: string)
    ensures |r| > 0
  {
    var digit := ['0' + (n % 10) as char];
    if n < 10 then digit else NatText(n / 10) + digit
  }

  /** The label `reset_index` gives the old index: its name, else `"index"`, else `"level_0"`. */
  function ResetName(f: Frame): string {
    match f.indexName
    case Some(name) => name
    case None =>
      var taken := match f.header
        case Flat(names) => "index" in names
        case Multi(labels) => exists j :: 0 <= j < |labels| && labels[j] != [] && labels[j][0] == Some("index");
      if taken then "level_0" else "index"
  }

  /**
   * `reset_index()`: the old index becomes the first column (on a
   * multi-level header its label is padded with `""` below the first
   * level), and the rows are indexed `0, 1, ...` without a name.
   */
  function ResetIndex(f: Frame): (r: Frame)
    ensures r.indexName.None? && |r.rows| == |f.rows| && Width(r.header) == Width(f.header) + 1
    ensures forall i :: 0 <= i < |f.rows| ==> r.rows[i] == [f.index[i]] + f.rows[i]
  {
    var name := ResetName(f);
    var header := match f.header
      case Flat(names) => Flat([name] + names)
      case Multi(labels) =>
        var depth := if labels == [] || labels[0] == [] then 1 else |labels[0]|;
        Multi([[Some(name)] + seq(depth - 1, _ => Some(""))] + labels);
    var rows := seq(|f.rows|, i requires 0 <= i < |f.rows| => [f.index[i]] + f.rows[i]);
    RawFrame(None, seq(|f.rows|, i requires 0 <= i => Some(NatText(i))), header, rows)
  }

  /**
   * `_from_yfinance`: no frame for an empty symbol; `ImportError` when the
   * module is missing; the exception of `download` when it raises; no frame
   * for an empty download; otherwise the download with its index reset.
   */
  function FromYFinance(symbol: string, start: Option<string>, end: Option<string>, yf: YFinance): (r: Result<Option<Frame>, Error>)
    ensures symbol == "" ==> r == Ok(None)
    ensures symbol != "" && yf.NotInstalled? ==> r == Err(ImportError(YFinanceMessage))
    ensures symbol != "" && yf.Installed? ==>
              var d := yf.download(symbol, start, end);
              r == if d.Err? then Err(d.error) else if Empty(d.value) then Ok(None) else Ok(Some(ResetIndex(d.value)))
  {
    if symbol == "" then Ok(None)
    else
      match yf
      case NotInstalled => Err(ImportError(YFinanceMessage))
      case Installed(download) =>
        match download(symbol, start, end)
        case Err(e) => Err(e)
        case Ok(df) => if Empty(df) then Ok(None) else Ok(Some(ResetIndex(df)))
  }

  // ---------------------------------------------------------------------
  // `load`: the fallback over the sources.

  /** The arguments of `DataLoader.load`. */
  datatype Request = Request(symbol: string, filepath: Option<string>, url: Option<string>,
                              start: Option<string>, end: Option<string>)

  /** Everything outside the program: `read_csv` on a path or URL, the yfinance module, the date parser. */
  datatype Sources = Sources(readCsv: string -> CsvOutcome, yfinance: YFinance, parse: DateParser)

  /** One of the getters `load` builds. */
  datatype Getter = CsvFile(path: string) | CsvUrl(url: string) | YFinanceFeed

  /** Python truthiness of an optional string: given and not empty. */
  predicate Truthy(s: Option<string>) {
    s.Some? && s.value != ""
  }

  /** The getters in the order they are tried: the file if given, the URL if given, then yfinance. */
  function Getters(q: Request): (r: seq<Getter>)
    ensures |r| == 1 + (if Truthy(q.filepath) then 1 else 0) + (if Truthy(q.url) then 1 else 0)
    ensures r[|r| - 1] == YFinanceFeed
    ensures Truthy(q.filepath) <==> r[0].CsvFile?
    ensures Truthy(q.filepath) ==> r[0] == CsvFile(q.filepath.value)
    ensures Truthy(q.url) <==> |r| >= 2 && r[|r| - 2].CsvUrl?
    ensures Truthy(q.url) ==> r[|r| - 2] == CsvUrl(q.url.value)
  {
    (if Truthy(q.filepath) then [CsvFile(q.filepath.value)] else [])
    + (if Truthy(q.url) then [CsvUrl(q.url.value)] else [])
    + [YFinanceFeed]
  }

  /** What calling a getter gives: a frame, no frame, or a raised exception. */
  function Fetch(g: Getter, q: Request, s: Sources): Result<Option<Frame>, Error> {
    match g
    case CsvFile(path) => ReadCsvSource(s.readCsv(path))
    case CsvUrl(url) => ReadCsvSource(s.readCsv(url))
    case YFinanceFeed => FromYFinance(q.symbol, q.start, q.end, s.yfinance)
  }

  /** An exception leaving `load`, with its `__cause__`. */
  datatype Raised = Raised(error: Error, cause: Option<Error>)

  const FailureMessage: string :=
    "DataLoader.load could not fetch data from any provided"
    + " source."

  /** The fate of one getter: go on to the next (recording an error or not), or finish `load`. */
  datatype Step = Skip(recorded: Option<Error>) | Finish(result: Result<Indexed, Raised>)

  /**
   * One turn of the loop: an `ImportError` is recorded and skipped, any
   * other exception of the getter escapes, no frame is skipped silently,
   * a frame that cleans finishes the load, and the `ValueError` of a frame
   * that does not clean is recorded and skipped (cleaning raises nothing else).
   */
  function Attempt(g: Getter, q: Request, s: Sources): (r: Step)
    ensures r.Finish? && r.result.Ok? ==>
              exists f :: Fetch(g, q, s) == Ok(Some(f)) && Clean(f, s.parse) == Ok(r.result.value)
  {
    match Fetch(g, q, s)
    case Err(e) => if e.ImportError? then Skip(Some(e)) else Finish(Err(Raised(e, None)))
    case Ok(None) => Skip(None)
    case Ok(Some(f)) =>
      match Clean(f, s.parse)
      case Ok(t) => Finish(Ok(t))
      case Err(e) => Skip(Some(e))
  }

  /** The last error recorded so far. */
  function Record(last: Option<Error>, recorded: Option<Error>): Option<Error> {
    if recorded.Some? then recorded else last
  }

  /** The rest of the loop from the getters `gs` on, with `last` the last error recorded before them. */
  function Fallback(gs: seq<Getter>, q: Request, s: Sources, last: Option<Error>): Result<Indexed, Raised> {
    if gs == [] then Err(Raised(ValueError(FailureMessage), last))
    else
      match Attempt(gs[0], q, s)
      case Finish(result) => result
      case Skip(recorded) => Fallback(gs[1..], q, s, Record(last, recorded))
  }

  /** `DataLoader.load`, as a value. */
  function Loaded(q: Request, s: Sources): Result<Indexed, Raised> {
    Fallback(Getters(q), q, s, None)
  }

  /** `DataLoader.load`: the loop over the getters, keeping the last error. */
  method Load(symbol: string, filepath: Option<string>, url: Option<string>,
              start: Option<string>, end: Option<string>, sources: Sources)
    returns (r: Result<Indexed, Raised>)
    ensures r == Loaded(Request(symbol, filepath, url, start, end), sources)
  {
    var q := Request(symbol, filepath, url, start, end);
    var loaders := Getters(q);
    var lastError: Option<Error> := None;
    var i := 0;
    while i < |loaders|
      invariant 0 <= i <= |loaders|
      invariant Fallback(loaders[i..], q, sources, lastError) == Loaded(q, sources)
    {
      assert loaders[i..][1..] == loaders[i + 1..];
      assert Fallback(loaders[i..], q, sources, lastError) ==
             match Attempt(loaders[i], q, sources)
             case Finish(result) => result
             case Skip(recorded) => Fallback(loaders[i + 1..], q, sources, Record(lastError, recorded));
      var frame := Fetch(loaders[i], q, sources);
      if frame.Err? {
        if frame.error.ImportError? {
          lastError := Some(frame.error);
          i := i + 1;
          continue;
        }
        return Err(Raised(frame.error, None));
      }
      if frame.value.None? {
        i := i + 1;
        continue;
      }
      var cleaned := Clean(frame.value.value, sources.parse);
      if cleaned.Ok? {
        return Ok(cleaned.value);
      }
      lastError := Some(cleaned.error);
      i := i + 1;
    }
    return Err(Raised(ValueError(FailureMessage), lastError));
  }

  /** Whether a getter lets the loop go on to the next one. */
  predicate Skipped(g: Getter, q: Request, s: Sources) {
    Attempt(g, q, s).Skip?
  }

  /** A usable CSV file is preferred to every other source. */
  lemma LoadPrefersFilepath(q: Request, s: Sources, f: Frame)
    requires Truthy(q.filepath) && s.readCsv(q.filepath.value) == Parsed(f) && !Empty(f)
    requires Clean(f, s.parse).Ok?
    ensures Loaded(q, s) == Ok(Clean(f, s.parse).value)
  {
  }

  /** When the file is absent or skipped, a usable URL is taken before yfinance. */
  lemma LoadUsesUrl(q: Request, s: Sources, f: Frame)
    requires !Truthy(q.filepath) || Skipped(CsvFile(q.filepath.value), q, s)
    requires Truthy(q.url) && s.readCsv(q.url.value) == Parsed(f) && !Empty(f)
    requires Clean(f, s.parse).Ok?
    ensures Loaded(q, s) == Ok(Clean(f, s.parse).value)
  {
    var url := CsvUrl(q.url.value);
    AttemptFinishes(url, q, s, f);
    UrlFinishes(q, s, url);
  }

  /** The loop ends with what the URL getter finishes with, once the file is absent or skipped. */
  lemma UrlFinishes(q: Request, s: Sources, url: Getter)
    requires !Truthy(q.filepath) || Skipped(CsvFile(q.filepath.value), q, s)
    requires Truthy(q.url) && url == CsvUrl(q.url.value) && Attempt(url, q, s).Finish?
    ensures Loaded(q, s) == Attempt(url, q, s).result
  {
    var gs := Getters(q);
    if Truthy(q.filepath) {
      UrlAfterFile(gs, q, s, url);
    } else {
      FinishFirst(gs, q, s, None, url);
    }
  }

  /** A skipped file, then a URL that finishes, finish the loop with the URL's result. */
  lemma UrlAfterFile(gs: seq<Getter>, q: Request, s: Sources, url: Getter)
    requires |gs| == 3 && Skipped(gs[0], q, s) && gs[1] == url && Attempt(url, q, s).Finish?
    ensures Fallback(gs, q, s, None) == Attempt(url, q, s).result
  {
    FallbackSkip(gs, q, s, None);
  }

  /** A getter whose frame cleans finishes the load with the cleaned frame. */
  lemma AttemptFinishes(g: Getter, q: Request, s: Sources, f: Frame)
    requires Fetch(g, q, s) == Ok(Some(f)) && Clean(f, s.parse).Ok?
    ensures Attempt(g, q, s) == Finish(Ok(Clean(f, s.parse).value))
  {
  }

  /** A first getter that finishes finishes the loop. */
  lemma FinishFirst(gs: seq<Getter>, q: Request, s: Sources, last: Option<Error>, g: Getter)
    requires gs != [] && gs[0] == g && Attempt(g, q, s).Finish?
    ensures Fallback(gs, q, s, last) == Attempt(g, q, s).result
  {
  }

  /** When the file and the URL are absent or skipped, a usable download is taken. */
  lemma LoadFallsBackToYFinance(q: Request, s: Sources, df: Frame)
    requires !Truthy(q.filepath) || Skipped(CsvFile(q.filepath.value), q, s)
    requires !Truthy(q.url) || Skipped(CsvUrl(q.url.value), q, s)
    requires q.symbol != "" && s.yfinance.Installed? && s.yfinance.download(q.symbol, q.start, q.end) == Ok(df)
    requires !Empty(df) && Clean(ResetIndex(df), s.parse).Ok?
    ensures Loaded(q, s) == Ok(Clean(ResetIndex(df), s.parse).value)
  {
    var last := ReachYFinance(q, s);
    FallbackFinish([YFinanceFeed], q, s, last, ResetIndex(df));
  }

  /** With the file and the URL absent or skipped, the loop reaches the yfinance getter. */
  lemma ReachYFinance(q: Request, s: Sources) returns (last: Option<Error>)
    requires !Truthy(q.filepath) || Skipped(CsvFile(q.filepath.value), q, s)
    requires !Truthy(q.url) || Skipped(CsvUrl(q.url.value), q, s)
    ensures Loaded(q, s) == Fallback([YFinanceFeed], q, s, last)
  {
    var gs := Getters(q);
    last := None;
    if Truthy(q.filepath) {
      FallbackSkip(gs, q, s, last);
      last := Record(last, Attempt(gs[0], q, s).recorded);
      gs := gs[1..];
    }
    if Truthy(q.url) {
      FallbackSkip(gs, q, s, last);
      last := Record(last, Attempt(gs[0], q, s).recorded);
      gs := gs[1..];
    }
    assert gs == [YFinanceFeed];
  }

  /**
   * When the file and the URL are absent or skipped and `download` raises, an
   * `ImportError` is recorded and chained to "could not fetch data", and any
   * other exception escapes `load` unchained.
   */
  lemma LoadDownloadRaises(q: Request, s: Sources, e: Error)
    requires !Truthy(q.filepath) || Skipped(CsvFile(q.filepath.value), q, s)
    requires !Truthy(q.url) || Skipped(CsvUrl(q.url.value), q, s)
    requires q.symbol != "" && s.yfinance.Installed?
    requires s.yfinance.download(q.symbol, q.start, q.end) == Err(e)
    ensures e.ImportError? ==> Loaded(q, s) == Err(Raised(ValueError(FailureMessage), Some(e)))
    ensures !e.ImportError? ==> Loaded(q, s) == Err(Raised(e, None))
  {
    var last := ReachYFinance(q, s);
    var gs := [YFinanceFeed];
    assert Fetch(YFinanceFeed, q, s) == Err(e);
    if e.ImportError? {
      FallbackSkip(gs, q, s, last);
      assert gs[1..] == [];
    }
  }

  /** A getter that is skipped passes the loop on to the next with its error recorded. */
  lemma FallbackSkip(gs: seq<Getter>, q: Request, s: Sources, last: Option<Error>)
    requires gs != [] && Skipped(gs[0], q, s)
    ensures Fallback(gs, q, s, last) == Fallback(gs[1..], q, s, Record(last, Attempt(gs[0], q, s).recorded))
  {
  }

  /** A getter whose frame cleans ends the loop with the cleaned frame. */
  lemma FallbackFinish(gs: seq<Getter>, q: Request, s: Sources, last: Option<Error>, f: Frame)
    requires gs != [] && Fetch(gs[0], q, s) == Ok(Some(f)) && Clean(f, s.parse).Ok?
    ensures Fallback(gs, q, s, last) == Ok(Clean(f, s.parse).value)
  {
  }

  /** Getters that are skipped only pass the last recorded error on. */
  lemma {:induction false} FallbackSkips(gs: seq<Getter>, q: Request, s: Sources, last: Option<Error>, k: nat)
    requires k <= |gs| && forall i :: 0 <= i < k ==> Skipped(gs[i], q, s)
    ensures Fallback(gs, q, s, last) == Fallback(gs[k..], q, s, LastRecorded(gs[..k], q, s, last))
    decreases k
  {
    if k > 0 {
      var step := Attempt(gs[0], q, s);
      FallbackSkips(gs[1..], q, s, Record(last, step.recorded), k - 1);
      assert gs[1..][k - 1..] == gs[k..];
      assert gs[1..][..k - 1] == gs[..k][1..];
      LastRecordedShift(gs[..k], q, s, last);
    } else {
      assert gs[0..] == gs;
    }
  }

  /** The error recorded last by the getters `gs`, or `last` when none records one. */
  function LastRecorded(gs: seq<Getter>, q: Request, s: Sources, last: Option<Error>): Option<Error> {
    if gs == [] then last
    else
      var step := Attempt(gs[|gs| - 1], q, s);
      if step.Skip? && step.recorded.Some? then step.recorded
      else LastRecorded(gs[..|gs| - 1], q, s, last)
  }

  /** Recording the first getter's error, then looking at the rest, finds the same last error. */
  lemma {:induction false} LastRecordedShift(gs: seq<Getter>, q: Request, s: Sources, last: Option<Error>)
    requires gs != [] && Skipped(gs[0], q, s)
    ensures LastRecorded(gs, q, s, last) == LastRecorded(gs[1..], q, s, Record(last, Attempt(gs[0], q, s).recorded))
    decreases |gs|
  {
    if |gs| > 1 {
      var init := gs[..|gs| - 1];
      assert init[0] == gs[0];
      assert init[1..] == gs[1..][..|gs[1..]| - 1];
      assert gs[1..][|gs[1..]| - 1] == gs[|gs| - 1];
      LastRecordedShift(init, q, s, last);
    }
  }

  /**
   * When every source is skipped, `load` raises the `ValueError` "could not
   * fetch data", chained to the last error recorded (none if nothing was).
   */
  lemma LoadFailure(q: Request, s: Sources)
    requires forall g :: g in Getters(q) ==> Skipped(g, q, s)
    ensures Loaded(q, s) == Err(Raised(ValueError(FailureMessage), LastRecorded(Getters(q), q, s, None)))
  {
    var gs := Getters(q);
    FallbackSkips(gs, q, s, None, |gs|);
    assert gs[..|gs|] == gs;
  }

  /**
   * With an unreadable file and URL and no yfinance module, `load` raises
   * "could not fetch data" caused by the `ImportError` of the yfinance fallback.
   */
  lemma LoadWithoutYFinance(q: Request, s: Sources)
    requires Truthy(q.filepath) && s.readCsv(q.filepath.value) == Unreadable
    requires Truthy(q.url) && s.readCsv(q.url.value) == Unreadable
    requires q.symbol != "" && s.yfinance.NotInstalled?
    ensures Loaded(q, s) == Err(Raised(ValueError(FailureMessage), Some(ImportError(YFinanceMessage))))
  {
    var gs := Getters(q);
    assert gs == [CsvFile(q.filepath.value), CsvUrl(q.url.value), YFinanceFeed];
    assert Attempt(YFinanceFeed, q, s) == Skip(Some(ImportError(YFinanceMessage)));
    assert Attempt(CsvFile(q.filepath.value), q, s) == Skip(None);
    assert Attempt(CsvUrl(q.url.value), q, s) == Skip(None);
    LoadFailure(q, s);
  }

  /** Whatever the loop returns normally is a cleaned frame of one of its sources. */
  lemma {:induction false} FallbackOk(gs: seq<Getter>, q: Request, s: Sources, last: Option<Error>)
    requires Fallback(gs, q, s, last).Ok?
    ensures exists k, f :: 0 <= k < |gs| && Fetch(gs[k], q, s) == Ok(Some(f))
              && Clean(f, s.parse) == Ok(Fallback(gs, q, s, last).value)
  {
    var r := Fallback(gs, q, s, last);
    var step := Attempt(gs[0], q, s);
    if step.Skip? {
      FallbackSkip(gs, q, s, last);
      FallbackOk(gs[1..], q, s, Record(last, step.recorded));
      var k, f :| 0 <= k < |gs[1..]| && Fetch(gs[1..][k], q, s) == Ok(Some(f)) && Clean(f, s.parse) == Ok(r.value);
      assert gs[k + 1] == gs[1..][k];
    } else {
      var f :| Fetch(gs[0], q, s) == Ok(Some(f)) && Clean(f, s.parse) == Ok(r.value);
    }
  }

  /**
   * What the loop raises is either the "could not fetch data" `ValueError`,
   * when every getter is skipped, chained to the last error recorded (or to
   * `last` when none records one), or an exception other than `ImportError`
   * that the first getter not skipped raises, unchained.
   */
  lemma {:induction false} FallbackErr(gs: seq<Getter>, q: Request, s: Sources, last: Option<Error>)
    requires Fallback(gs, q, s, last).Err?
    ensures var e := Fallback(gs, q, s, last).error;
            ((forall i :: 0 <= i < |gs| ==> Skipped(gs[i], q, s))
               && e == Raised(ValueError(FailureMessage), LastRecorded(gs, q, s, last)))
            || (e.cause.None? && !e.error.ImportError? &&
                exists k :: 0 <= k < |gs| && Fetch(gs[k], q, s) == Err(e.error)
                              && forall i :: 0 <= i < k ==> Skipped(gs[i], q, s))
  {
    if gs != [] {
      var e := Fallback(gs, q, s, last).error;
      var step := Attempt(gs[0], q, s);
      if step.Skip? {
        var rest := gs[1..];
        var next := Record(last, step.recorded);
        FallbackErr(rest, q, s, next);
        if (forall i :: 0 <= i < |rest| ==> Skipped(rest[i], q, s))
           && e == Raised(ValueError(FailureMessage), LastRecorded(rest, q, s, next)) {
          LastRecordedShift(gs, q, s, last);
          HoldsCons(gs, g => Skipped(g, q, s), |gs|);
        } else {
          var k :| 0 <= k < |rest| && Fetch(rest[k], q, s) == Err(e.error)
                   && forall i :: 0 <= i < k ==> Skipped(rest[i], q, s);
          assert gs[k + 1] == rest[k];
          HoldsCons(gs, g => Skipped(g, q, s), k + 1);
        }
      } else {
        assert Fetch(gs[0], q, s) == Err(e.error);
      }
    }
  }

  /** A first element with `P` followed by `k - 1` elements with `P` makes `k` elements with `P`. */
  lemma HoldsCons<T>(xs: seq<T>, P: T -> bool, k: nat)
    requires 0 < k <= |xs| && P(xs[0])
    requires forall i :: 0 <= i < k - 1 ==> P(xs[1..][i])
    ensures forall i :: 0 <= i < k ==> P(xs[i])
  {
    forall i | 0 < i < k ensures P(xs[i]) {
      assert xs[i] == xs[1..][i - 1];
    }
  }

  /** A frame that `load` returns has only OHLCV columns, no missing value, and ascending dates. */
  lemma LoadedIsClean(q: Request, s: Sources)
    requires Loaded(q, s).Ok?
    ensures var t := Loaded(q, s).value;
            (forall k :: 0 <= k < |t.columns| ==> t.columns[k] in RequiredColumns)
            && HasColumns(t, RequiredColumns)
            && (forall i :: 0 <= i < |t.entries| ==> Complete(t.entries[i].1))
            && DatesAscending(t.entries)
  {
    FallbackOk(Getters(q), q, s, None);
  }

  // ---------------------------------------------------------------------
  // The sample files of the loader's tests.

  /** A name without surrounding whitespace normalizes to its lower-case form. */
  lemma NormalizeWord(s: string, lowered: string)
    requires s != [] && !IsSpace(s[0]) && !IsSpace(s[|s| - 1])
    requires Lower(s) == lowered
    ensures Normalize(s) == lowered
  {
    StripUnchanged(s);
  }

  /** The names of the sample header `Date,Open,High,Low,Close,Volume` normalize to their lower-case forms. */
  lemma SampleName(name: string, lowered: string)
    requires (name == "Date" && lowered == "date") || (name == "Open" && lowered == "open") || (name == "High" && lowered == "high")
             || (name == "Low" && lowered == "low") || (name == "Close" && lowered == "close")
             || (name == "Volume" && lowered == "volume")
    ensures Normalize(name) == lowered
  {
    NormalizeWord(name, lowered);
  }

  /** The `Date` column of the sample header is a date-like column. */
  lemma SampleDateName(date: string)
    requires date == "Date"
    ensures MentionsDate(date)
  {
    assert OccursAt(Lower(date), "date", 0);
  }

  /**
   * A file without an index name whose first column mentions a date, with
   * no column named `"datetime"`, each schema name held by exactly one
   * column, complete rows and dates the parser accepts, cleans into exactly
   * the five OHLCV columns without losing a row.
   */
  lemma DateColumnFileCleans(f: Frame, parse: DateParser)
    requires f.indexName.None? && f.header.Flat? && |f.header.names| > 0
    requires MentionsDate(f.header.names[0]) && "datetime" !in f.header.names
    requires forall x :: x in RequiredColumns ==> OccursOnce(NormalizedNames(f.header.names), x)
    requires forall i :: 0 <= i < |f.rows| ==> Complete(f.rows[i]) && parse(f.rows[i][0].value).Ok?
    ensures Clean(f, parse).Ok?
    ensures Clean(f, parse).value.columns == RequiredColumns
    ensures |Clean(f, parse).value.entries| == |f.rows|
  {
    DateColumnIndexed(f, parse);
    var d := EnsureDatetimeIndex(FlattenColumns(f), parse).value;
    StandardizedSchema(d);
    StandardizedComplete(d);
    var s := StandardizeColumns(d).value;
    AllComplete(SortByDate(s).entries, s.entries);
  }

  /** Keeping some of the columns of complete rows leaves complete rows. */
  lemma StandardizedComplete(d: Indexed)
    requires IndexedShaped(d) && StandardizeColumns(d).Ok?
    requires forall i :: 0 <= i < |d.entries| ==> Complete(d.entries[i].1)
    ensures forall i :: 0 <= i < |StandardizeColumns(d).value.entries| ==> Complete(StandardizeColumns(d).value.entries[i].1)
  {
    var s := StandardizeColumns(d).value;
    var positions := Selection(NormalizedNames(d.columns), RequiredColumns);
    forall i | 0 <= i < |s.entries| ensures Complete(s.entries[i].1) {
      assert s.entries[i].1 == Project(d.entries[i].1, positions);
      forall c | c in s.entries[i].1 ensures c.Some? {
        var k :| 0 <= k < |s.entries[i].1| && s.entries[i].1[k] == c;
        assert d.entries[i].1[positions[k]] in d.entries[i].1;
      }
    }
  }

  /** The first step of `DateColumnFileCleans`: the date column becomes the index and stays a column. */
  lemma DateColumnIndexed(f: Frame, parse: DateParser)
    requires f.indexName.None? && f.header.Flat? && |f.header.names| > 0
    requires MentionsDate(f.header.names[0]) && "datetime" !in f.header.names
    requires forall i :: 0 <= i < |f.rows| ==> Complete(f.rows[i]) && parse(f.rows[i][0].value).Ok?
    ensures EnsureDatetimeIndex(FlattenColumns(f), parse).Ok?
    ensures EnsureDatetimeIndex(FlattenColumns(f), parse).value.columns == f.header.names
    ensures var d := EnsureDatetimeIndex(FlattenColumns(f), parse).value;
            |d.entries| == |f.rows| && forall i :: 0 <= i < |f.rows| ==> d.entries[i].1 == f.rows[i]
  {
    var t := FlattenColumns(f);
    assert ChooseDateSource(t) == Some(FromColumn(0));
    var column := Column(t.rows, 0);
    forall i | 0 <= i < |column| && column[i].Some? ensures parse(column[i].value).Ok? {
      assert f.rows[i][0] in f.rows[i];
    }
  }

  /** Rows that are all complete lose none to `_drop_nas`. */
  lemma AllComplete(entries: seq<Entry>, original: seq<Entry>)
    requires multiset(entries) == multiset(original)
    requires forall i :: 0 <= i < |original| ==> Complete(original[i].1)
    ensures |DropNas(entries)| == |original|
  {
    var kept := DropNas(entries);
    forall x | x in multiset(entries) ensures Complete(x.1) {
      var i :| 0 <= i < |original| && original[i] == x;
    }
    assert multiset(kept) == multiset(entries);
    assert |multiset(kept)| == |multiset(original)|;
  }
}
