/** The shape of a parsed CSV file as the readers (pandas, Spark) hand it
    over, and the cleaned rows the dashboards build from it. */
module Tables {
  import opened Text
  import opened Dates

  /** A parsed cell; `None` is a missing value (pandas NaN, Spark null). */
  type Cell = Option<string>

  /** A parsed file: its header and its rows, in file order. */
  datatype Table = Table(header: seq<string>, rows: seq<seq<Cell>>)

  /** Position of the first column called `name`. */
  function ColumnIndex(header: seq<string>, name: string): (r: Option<nat>)
    ensures r.None? <==> name !in header
    ensures r.Some? ==> r.value < |header| && header[r.value] == name
    ensures r.Some? ==> forall j :: 0 <= j < r.value ==> header[j] != name
  {
    if header == [] then None
    else if header[0] == name then Some(0)
    else match ColumnIndex(header[1..], name)
      case None => None
      case Some(i) => Some(i + 1)
  }

  function CellAt(row: seq<Cell>, i: nat): Cell {
    if i < |row| then row[i] else None
  }

  /** `row[name]`: the cell under the first column called `name`. */
  function Lookup(header: seq<string>, row: seq<Cell>, name: string): Cell {
    match ColumnIndex(header, name)
    case None => None
    case Some(i) => CellAt(row, i)
  }

  /** `str(cell)`: pandas prints a missing value as "nan". */
  function CellText(c: Cell): string {
    match c
    case None => "nan"
    case Some(s) => s
  }

  /** `df.columns.str.lower().str.strip()`. */
  function NormalizeHeader(cols: seq<string>): (r: seq<string>)
    ensures |r| == |cols|
    ensures forall i :: 0 <= i < |cols| ==> r[i] == Strip(Lower(cols[i]))
    ensures forall i :: 0 <= i < |r| ==> IsStripped(r[i])
  {
    seq(|cols|, i requires 0 <= i < |cols| => Strip(Lower(cols[i])))
  }

  /** A dashboard row after cleaning: the three identity fields, the date
      converted with `errors='coerce'` (`None` is NaT), and the file it came from. */
  datatype CleanRow = CleanRow(name: string, country: string, city: string,
                               date: Option<Date>, source: string)

  /** The `(name, country, city)` triple the dashboards deduplicate on. */
  function Identity(r: CleanRow): (string, string, string) {
    (r.name, r.country, r.city)
  }

  /** One `file_info` entry: the file, its row count, and a clock reading. */
  datatype FileInfo = FileInfo(file: string, records: nat, stamp: string)

  /** One row after `pd.to_datetime(df['date'], errors='coerce')` and
      `dropna(subset=['name', 'country', 'city'])`: dropped exactly when one of
      the three identity cells is missing; a bad or missing date is kept as NaT. */
  function CleanRowOf(header: seq<string>, row: seq<Cell>, parseDate: string -> Option<Date>,
                      source: string): (r: Option<CleanRow>)
    ensures r.Some? <==> Lookup(header, row, "name").Some? && Lookup(header, row, "country").Some?
                         && Lookup(header, row, "city").Some?
    ensures r.Some? ==> r.value.name == Lookup(header, row, "name").value
                        && r.value.country == Lookup(header, row, "country").value
                        && r.value.city == Lookup(header, row, "city").value
                        && r.value.source == source
    ensures r.Some? && Lookup(header, row, "date").None? ==> r.value.date.None?
    ensures r.Some? && Lookup(header, row, "date").Some? ==>
              r.value.date == parseDate(Lookup(header, row, "date").value)
  {
    var name, country, city := Lookup(header, row, "name"), Lookup(header, row, "country"),
                               Lookup(header, row, "city");
    if name.None? || country.None? || city.None? then None
    else
      var date := match Lookup(header, row, "date")
                  case None => None
                  case Some(s) => parseDate(s);
      Some(CleanRow(name.value, country.value, city.value, date, source))
  }

  /** The cleaned rows of a file, in file order. */
  function CleanRows(header: seq<string>, rows: seq<seq<Cell>>, parseDate: string -> Option<Date>,
                     source: string): (r: seq<CleanRow>)
    ensures |r| <= |rows|
    ensures forall x :: x in r ==> x.source == source
    ensures (forall i :: 0 <= i < |rows| ==> CleanRowOf(header, rows[i], parseDate, source).Some?)
              ==> |r| == |rows|
  {
    if rows == [] then []
    else
      var before := CleanRows(header, rows[..|rows| - 1], parseDate, source);
      match CleanRowOf(header, rows[|rows| - 1], parseDate, source)
      case None => before
      case Some(x) => before + [x]
  }

  /** The values a partial map yields over a sequence, in order. */
  function Kept<A, B>(xs: seq<A>, f: A -> Option<B>): seq<B> {
    if xs == [] then []
    else
      var before := Kept(xs[..|xs| - 1], f);
      match f(xs[|xs| - 1])
      case None => before
      case Some(y) => before + [y]
  }

  /** What `Kept` yields comes from an increasing choice of positions, and
      every position where the map yields a value is chosen. */
  lemma {:induction false} KeptPositions<A, B>(xs: seq<A>, f: A -> Option<B>) returns (picked: seq<nat>)
    ensures |picked| == |Kept(xs, f)|
    ensures forall k :: 0 <= k < |picked| ==> picked[k] < |xs| && f(xs[picked[k]]) == Some(Kept(xs, f)[k])
    ensures forall k, l :: 0 <= k < l < |picked| ==> picked[k] < picked[l]
    ensures forall i :: 0 <= i < |xs| && f(xs[i]).Some? ==> i in picked
    decreases |xs|
  {
    if xs == [] {
      picked := [];
    } else {
      var n := |xs| - 1;
      var init := xs[..n];
      var before := KeptPositions(init, f);
      var prev := Kept(init, f);
      assert forall i :: 0 <= i < n ==> init[i] == xs[i];
      if f(xs[n]).Some? {
        assert Kept(xs, f) == prev + [f(xs[n]).value];
        picked := before + [n];
        assert forall k :: 0 <= k < |before| ==> picked[k] == before[k] && Kept(xs, f)[k] == prev[k];
      } else {
        assert Kept(xs, f) == prev;
        picked := before;
      }
    }
  }

  /** A value is kept exactly when some element maps to it. */
  lemma {:induction false} KeptMembers<A, B>(xs: seq<A>, f: A -> Option<B>, y: B)
    ensures y in Kept(xs, f) <==> exists i :: 0 <= i < |xs| && f(xs[i]) == Some(y)
    decreases |xs|
  {
    if xs != [] {
      var n := |xs| - 1;
      var init := xs[..n];
      KeptMembers(init, f, y);
      assert forall i :: 0 <= i < n ==> init[i] == xs[i];
      if f(xs[n]) == Some(y) {
        assert Kept(xs, f) == Kept(init, f) + [y];
      }
    }
  }

  /** `CleanRows` is `CleanRowOf` kept over the rows. */
  lemma {:induction false} CleanRowsAreKept(header: seq<string>, rows: seq<seq<Cell>>,
                                            parseDate: string -> Option<Date>, source: string)
    ensures CleanRows(header, rows, parseDate, source) ==
            Kept(rows, (row: seq<Cell>) => CleanRowOf(header, row, parseDate, source))
    decreases |rows|
  {
    if rows != [] {
      CleanRowsAreKept(header, rows[..|rows| - 1], parseDate, source);
    }
  }

  /** The rows `CleanRows` keeps, in row order: there is an increasing
      choice of row positions whose `CleanRowOf` results are exactly the
      cleaned rows, and every row that cleans to a value is chosen. */
  lemma CleanRowsKept(header: seq<string>, rows: seq<seq<Cell>>,
                      parseDate: string -> Option<Date>, source: string)
    returns (picked: seq<nat>)
    ensures var r := CleanRows(header, rows, parseDate, source);
            |picked| == |r| &&
            (forall k :: 0 <= k < |picked| ==>
               picked[k] < |rows| && CleanRowOf(header, rows[picked[k]], parseDate, source) == Some(r[k])) &&
            (forall k, l :: 0 <= k < l < |picked| ==> picked[k] < picked[l]) &&
            (forall i :: 0 <= i < |rows| && CleanRowOf(header, rows[i], parseDate, source).Some? ==> i in picked)
  {
    var clean := (row: seq<Cell>) => CleanRowOf(header, row, parseDate, source);
    CleanRowsAreKept(header, rows, parseDate, source);
    picked := KeptPositions(rows, clean);
  }

  /** A cleaned row is exactly the cleaned value of some input row. */
  lemma CleanRowsMembers(header: seq<string>, rows: seq<seq<Cell>>, parseDate: string -> Option<Date>,
                         source: string, x: CleanRow)
    ensures x in CleanRows(header, rows, parseDate, source) <==>
              exists i :: 0 <= i < |rows| && CleanRowOf(header, rows[i], parseDate, source) == Some(x)
  {
    var r := CleanRows(header, rows, parseDate, source);
    var picked := CleanRowsKept(header, rows, parseDate, source);
    if x in r {
      var k :| 0 <= k < |r| && r[k] == x;
      assert CleanRowOf(header, rows[picked[k]], parseDate, source) == Some(x);
    }
    if exists i :: 0 <= i < |rows| && CleanRowOf(header, rows[i], parseDate, source) == Some(x) {
      var i :| 0 <= i < |rows| && CleanRowOf(header, rows[i], parseDate, source) == Some(x);
      assert i in picked;
      var k :| 0 <= k < |picked| && picked[k] == i;
      assert r[k] == x;
    }
  }
}
