/** The stand-alone file processor: wait for the database, then repeatedly
    take every CSV file in the input directory, upsert its rows into
    `clients`, and move the files that went through to the processed
    directory under a time-stamped name. */
module SimpleProcessor {
  import opened Text
  import opened Dates
  import opened Tables
  import opened Schema
  import opened ClientStore

  /** Connection attempts before giving up (two seconds apart). */
  const MaxAttempts: nat := 30

  /** `wait_for_database`: `reachable(i)` says whether attempt `i` connects.
      Succeeds exactly when one of the thirty attempts connects, stopping at
      the first that does. */
  method WaitForDatabase(reachable: nat -> bool) returns (ok: bool, attempts: nat)
    ensures ok <==> exists i :: 0 <= i < MaxAttempts && reachable(i)
    ensures ok ==> 1 <= attempts <= MaxAttempts && reachable(attempts - 1) &&
                   forall i :: 0 <= i < attempts - 1 ==> !reachable(i)
    ensures !ok ==> attempts == MaxAttempts
  {
    attempts := 0;
    while attempts < MaxAttempts
      invariant attempts <= MaxAttempts
      invariant forall i :: 0 <= i < attempts ==> !reachable(i)
    {
      attempts := attempts + 1;
      if reachable(attempts - 1) {
        return true, attempts;
      }
    }
    return false, attempts;
  }

  /** The `col_mapping` loop: for each required field in turn, scan the
      normalised columns for the first that matches it; give up as soon as a
      field has none. */
  method BuildColumnMapping(cols: seq<string>) returns (mapping: Option<map<string, string>>)
    ensures mapping == SubstringMapping(cols)
  {
    var m: map<string, string> := map[];
    var k := 0;
    while k < |Required|
      invariant k <= |Required|
      invariant forall f :: f in Required[..k] ==> FirstMatch(f, cols).Some?
      invariant m == map f | f in Required[..k] :: cols[FirstMatch(f, cols).value]
    {
      var field := Required[k];
      var j := 0;
      var found := false;
      while j < |cols| && !found
        invariant j <= |cols|
        invariant found ==> 0 < j && Matches(field, cols[j - 1])
        invariant forall jj :: 0 <= jj < (if found then j - 1 else j) ==> !Matches(field, cols[jj])
      {
        if Matches(field, cols[j]) {
          found := true;
        }
        j := j + 1;
      }
      if !found {
        assert FirstMatch(field, cols).None?;
        return None;
      }
      assert FirstMatch(field, cols) == Some(j - 1);
      m := m[field := cols[j - 1]];
      assert Required[..k + 1] == Required[..k] + [field];
      k := k + 1;
    }
    assert Required[..k] == Required;
    return Some(m);
  }

  /** Every required field has a column in the mapping. */
  predicate MappingComplete(m: map<string, string>) {
    forall f :: f in Required ==> f in m
  }

  /** The id given to the `n`-th successfully written row of a file without
      an `id` column: `auto_` followed by `n` in decimal. */
  function AutoId(n: nat): (r: string)
    ensures |r| > 5 && r[..5] == "auto_"
    ensures AllDigits(r[5..]) && DigitsValue(r[5..]) == n
    ensures |r| == 6 || r[5] != '0'
  {
    NatToStringValue(n);
    var r := "auto_" + NatToString(n);
    assert r[5..] == NatToString(n);
    r
  }

  lemma AutoIdInjective(m: nat, n: nat)
    requires AutoId(m) == AutoId(n)
    ensures m == n
  {
  }

  /** The text of the date cell of a row, as `str()` renders it. */
  function DateText(cols: seq<string>, m: map<string, string>, row: seq<Cell>): string
    requires MappingComplete(m)
  {
    CellText(Lookup(cols, row, m["date"]))
  }

  /** No row's date resolves to `NaT`. */
  predicate DatesUsable(cols: seq<string>, m: map<string, string>, rows: seq<seq<Cell>>,
                        resolve: string -> DateValue)
    requires MappingComplete(m)
  {
    forall i :: 0 <= i < |rows| ==> resolve(DateText(cols, m, rows[i])) != NaT
  }

  /** The values the INSERT of one row carries once its date resolved to
      `d`: the row's `id` cell when the file has that column, otherwise
      `auto_<n>` with `n` one more than the rows written so far, and the
      mapped name, country and city cells as `str()` renders them, stripped. */
  function RowValues(cols: seq<string>, m: map<string, string>, row: seq<Cell>, autoNumber: nat,
                     d: Date): (r: Incoming)
    requires MappingComplete(m)
    ensures "id" !in cols ==> r.clientId == AutoId(autoNumber)
    ensures IsStripped(r.name) && IsStripped(r.country) && IsStripped(r.city)
    ensures r.date == d
  {
    var id := if "id" in cols then CellText(Lookup(cols, row, "id")) else AutoId(autoNumber);
    Incoming(id, Strip(CellText(Lookup(cols, row, m["name"]))),
             Strip(CellText(Lookup(cols, row, m["country"]))),
             Strip(CellText(Lookup(cols, row, m["city"]))), d)
  }

  /** The INSERT of one row: its values, or `None` when it raises, either
      because the date resolved to `NaT` or because the server refuses the
      values (`accepts` is the server's verdict on one INSERT). */
  function RowWrite(cols: seq<string>, m: map<string, string>, row: seq<Cell>, autoNumber: nat,
                    resolve: string -> DateValue, accepts: Incoming -> bool): (r: Option<Incoming>)
    requires MappingComplete(m)
    ensures r.None? <==>
              resolve(DateText(cols, m, row)) == NaT ||
              !accepts(RowValues(cols, m, row, autoNumber, resolve(DateText(cols, m, row)).date))
    ensures r.Some? ==> r.value == RowValues(cols, m, row, autoNumber, resolve(DateText(cols, m, row)).date)
    ensures r.Some? && "id" !in cols ==> r.value.clientId == AutoId(autoNumber)
  {
    match resolve(DateText(cols, m, row))
    case NaT => None
    case Day(d) =>
      var w := RowValues(cols, m, row, autoNumber, d);
      if accepts(w) then Some(w) else None
  }

  /** A written row is keyed by its `id` cell when the file has an `id`
      column and by `auto_<n>` otherwise, and carries the row's name,
      country and city cells stripped of surrounding blanks, and its
      resolved date. */
  lemma RowWriteFields(cols: seq<string>, m: map<string, string>, row: seq<Cell>, autoNumber: nat,
                       resolve: string -> DateValue, accepts: Incoming -> bool)
    requires MappingComplete(m) && RowWrite(cols, m, row, autoNumber, resolve, accepts).Some?
    ensures var w := RowWrite(cols, m, row, autoNumber, resolve, accepts).value;
            w.clientId == (if "id" in cols then CellText(Lookup(cols, row, "id")) else AutoId(autoNumber)) &&
            w.name == Strip(CellText(Lookup(cols, row, m["name"]))) &&
            w.country == Strip(CellText(Lookup(cols, row, m["country"]))) &&
            w.city == Strip(CellText(Lookup(cols, row, m["city"]))) &&
            IsStripped(w.name) && IsStripped(w.country) && IsStripped(w.city) &&
            Day(w.date) == resolve(DateText(cols, m, row))
  {
  }

  /** How one row is turned into an INSERT, given the number the next
      generated id would get. */
  type Writer = (seq<Cell>, nat) -> Option<Incoming>

  /** The writes of a file's rows in order, each row failing on its own: the
      behaviour the per-row `try` evidently intends. Only rows that were
      written advance the id counter. */
  function Writes(rows: seq<seq<Cell>>, write: Writer): (r: seq<Incoming>)
    ensures |r| <= |rows|
  {
    if rows == [] then []
    else
      var before := Writes(rows[..|rows| - 1], write);
      match write(rows[|rows| - 1], |before| + 1)
      case None => before
      case Some(w) => before + [w]
  }

  /** The writes of the first `i + 1` rows are those of the first `i`,
      followed by row `i`'s write, if any. */
  lemma WritesSnoc(rows: seq<seq<Cell>>, i: nat, write: Writer, before: seq<Incoming>, w: Option<Incoming>)
    requires i < |rows|
    requires before == Writes(rows[..i], write)
    requires w == write(rows[i], |before| + 1)
    ensures w.None? ==> Writes(rows[..i + 1], write) == before
    ensures w.Some? ==> Writes(rows[..i + 1], write) == before + [w.value]
  {
    assert rows[..i + 1][..i] == rows[..i];
  }

  /** A row that is always written is never lost. */
  lemma {:induction false} WritesAllRows(rows: seq<seq<Cell>>, write: Writer)
    requires forall i, n :: 0 <= i < |rows| ==> write(rows[i], n).Some?
    ensures |Writes(rows, write)| == |rows|
    decreases |rows|
  {
    if rows != [] {
      var init := rows[..|rows| - 1];
      assert forall i :: 0 <= i < |init| ==> init[i] == rows[i];
      WritesAllRows(init, write);
    }
  }

  /** A row that is always written is among the writes, under the counter
      it reached. */
  lemma {:induction false} WritesSomeRow(rows: seq<seq<Cell>>, write: Writer, good: nat) returns (n: nat)
    requires good < |rows| && forall n :: write(rows[good], n).Some?
    ensures |Writes(rows, write)| > 0
    ensures write(rows[good], n).Some? && write(rows[good], n).value in Writes(rows, write)
    decreases |rows|
  {
    var init := rows[..|rows| - 1];
    var before := Writes(init, write);
    if good < |rows| - 1 {
      assert init[good] == rows[good];
      n := WritesSomeRow(init, write, good);
      match write(rows[|rows| - 1], |before| + 1)
      case None =>
      case Some(w) =>
        assert Writes(rows, write) == before + [w];
    } else {
      n := |before| + 1;
      assert Writes(rows, write) == before + [write(rows[good], n).value];
    }
  }

  /** When the writer names a write after the counter `n` (`idOf(n)`, which
      is `auto_<n>` for the processor), the write at position `i` is named
      `idOf(i + 1)`. */
  lemma {:induction false} WritesNumbered(rows: seq<seq<Cell>>, write: Writer, idOf: nat -> string, i: nat)
    requires forall row, n :: write(row, n).Some? ==> write(row, n).value.clientId == idOf(n)
    requires i < |Writes(rows, write)|
    ensures Writes(rows, write)[i].clientId == idOf(i + 1)
    decreases |rows|
  {
    assert rows != [];
    var init := rows[..|rows| - 1];
    var before := Writes(init, write);
    if i < |before| {
      WritesNumbered(init, write, idOf, i);
      var w := write(rows[|rows| - 1], |before| + 1);
      if w.Some? {
        assert (before + [w.value])[i] == before[i];
      }
    }
  }

  /** Every write satisfies what the writer guarantees of each of its writes. */
  lemma {:induction false} WritesStripped(rows: seq<seq<Cell>>, write: Writer)
    requires forall row, n :: write(row, n).Some? ==>
               IsStripped(write(row, n).value.name) && IsStripped(write(row, n).value.country) &&
               IsStripped(write(row, n).value.city)
    ensures forall w :: w in Writes(rows, write) ==>
              IsStripped(w.name) && IsStripped(w.country) && IsStripped(w.city)
    decreases |rows|
  {
    if rows != [] {
      WritesStripped(rows[..|rows| - 1], write);
    }
  }

  /** The processor's writer for a file with columns `cols` and mapping `m`. */
  function RowWriter(cols: seq<string>, m: map<string, string>, resolve: string -> DateValue,
                     accepts: Incoming -> bool): Writer
    requires MappingComplete(m)
  {
    (row: seq<Cell>, n: nat) => RowWrite(cols, m, row, n, resolve, accepts)
  }

  /** The writes of a file's rows. */
  function FileWrites(cols: seq<string>, m: map<string, string>, rows: seq<seq<Cell>>,
                      resolve: string -> DateValue, accepts: Incoming -> bool): (r: seq<Incoming>)
    requires MappingComplete(m)
    ensures |r| <= |rows|
  {
    Writes(rows, RowWriter(cols, m, resolve, accepts))
  }

  /** Every written name, country and city is stripped of surrounding blanks. */
  lemma FileWritesStripped(cols: seq<string>, m: map<string, string>,
                           rows: seq<seq<Cell>>, resolve: string -> DateValue, accepts: Incoming -> bool)
    requires MappingComplete(m)
    ensures forall w :: w in FileWrites(cols, m, rows, resolve, accepts) ==>
              IsStripped(w.name) && IsStripped(w.country) && IsStripped(w.city)
  {
    var write := RowWriter(cols, m, resolve, accepts);
    forall row, n | write(row, n).Some?
      ensures IsStripped(write(row, n).value.name) && IsStripped(write(row, n).value.country) &&
              IsStripped(write(row, n).value.city)
    {
      RowWriteFields(cols, m, row, n, resolve, accepts);
    }
    WritesStripped(rows, write);
  }

  /** When every date resolves and the server refuses no INSERT, every row
      is written: rows are never dropped for a missing name, country or city. */
  lemma FileWritesAllRows(cols: seq<string>, m: map<string, string>,
                          rows: seq<seq<Cell>>, resolve: string -> DateValue, accepts: Incoming -> bool)
    requires MappingComplete(m) && DatesUsable(cols, m, rows, resolve)
    requires forall w :: accepts(w)
    ensures |FileWrites(cols, m, rows, resolve, accepts)| == |rows|
  {
    WritesAllRows(rows, RowWriter(cols, m, resolve, accepts));
  }

  /** Without an `id` column the writes are numbered `auto_1`, `auto_2`, ...
      in every file anew, so no two writes of one file share an id. */
  lemma AutoIdsDistinct(cols: seq<string>, m: map<string, string>, rows: seq<seq<Cell>>,
                        resolve: string -> DateValue, accepts: Incoming -> bool)
    requires MappingComplete(m) && "id" !in cols
    ensures forall i :: 0 <= i < |FileWrites(cols, m, rows, resolve, accepts)| ==>
              FileWrites(cols, m, rows, resolve, accepts)[i].clientId == AutoId(i + 1)
    ensures forall i, j :: 0 <= i < j < |FileWrites(cols, m, rows, resolve, accepts)| ==>
              FileWrites(cols, m, rows, resolve, accepts)[i].clientId !=
              FileWrites(cols, m, rows, resolve, accepts)[j].clientId
  {
    var write := RowWriter(cols, m, resolve, accepts);
    var ws := Writes(rows, write);
    forall i | 0 <= i < |ws|
      ensures ws[i].clientId == AutoId(i + 1)
    {
      WritesNumbered(rows, write, AutoId, i);
    }
  }

  /** A row whose name, country or city cell is empty is not dropped: it is
      written with the text "nan". */
  lemma MissingNameWrittenAsNan(cols: seq<string>, m: map<string, string>, row: seq<Cell>,
                                autoNumber: nat, resolve: string -> DateValue, accepts: Incoming -> bool)
    requires MappingComplete(m)
    requires Lookup(cols, row, m["name"]).None?
    requires resolve(DateText(cols, m, row)) != NaT
    requires accepts(RowValues(cols, m, row, autoNumber, resolve(DateText(cols, m, row)).date))
    ensures RowWrite(cols, m, row, autoNumber, resolve, accepts).Some?
    ensures RowWrite(cols, m, row, autoNumber, resolve, accepts).value.name == "nan"
  {
    RowWriteFields(cols, m, row, autoNumber, resolve, accepts);
    assert IsStripped("nan");
  }

  /** Everything outside the model that a run depends on. `read` is
      `pd.read_csv` (`None` when it raises); `connects`, `commits` and
      `renames` say whether those calls succeed for a file; `accepts` is the
      server's verdict on each INSERT of a file; `txTime` is the
      `CURRENT_TIMESTAMP` of the file's transaction; `clock` is the wall clock
      when the file is moved; `freeForm` is `pd.to_datetime` without a format
      and `today` the date it falls back to. */
  datatype Env = Env(read: string -> Option<Table>, connects: string -> bool,
                     commits: string -> bool, accepts: string -> Incoming -> bool,
                     renames: string -> bool, txTime: string -> int,
                     clock: string -> DateTime, freeForm: string -> Option<Date>, today: Date)

  /** The processor's date chain for this run: `%m/%d/%Y`, then free form,
      then today. */
  function DateChain(env: Env): string -> DateValue {
    s => ResolveDate(s, env.freeForm, env.today)
  }

  /** The run's chain yields NaT exactly for a missing-value marker:
      `ResolveDate`'s first property, for this run's free-form parser and day. */
  lemma DateChainFails(env: Env, s: string)
    ensures DateChain(env)(s) == NaT <==> s in NaTStrings
  {
  }

  /** `process_csv_file` returns `True`: the file was read, every required
      field found a column, the connection opened and the commit went through. */
  predicate FileAccepted(name: string, env: Env) {
    env.read(name).Some? && SubstringMapping(NormalizeHeader(env.read(name).value.header)).Some? &&
    env.connects(name) && env.commits(name)
  }

  /** The store after `process_csv_file`, and its verdict. A rejected file
      leaves the store as it was, since nothing is committed. */
  function ProcessFile(store: Store, name: string, env: Env): (r: (Store, bool))
    ensures r.1 == FileAccepted(name, env)
    ensures !r.1 ==> r.0 == store
    ensures Keyed(store) ==> Keyed(r.0)
  {
    match env.read(name)
    case None => (store, false)
    case Some(t) =>
      var cols := NormalizeHeader(t.header);
      match SubstringMapping(cols)
      case None => (store, false)
      case Some(m) =>
        if !env.connects(name) then (store, false)
        else
          var writes := FileWrites(cols, m, t.rows, DateChain(env), env.accepts(name));
          assert Keyed(store) ==> Keyed(UpsertAll(store, writes, env.txTime(name))) by {
            if Keyed(store) {
              UpsertAllKeepsKeyed(store, writes, env.txTime(name));
            }
          }
          if env.commits(name) then (UpsertAll(store, writes, env.txTime(name)), true)
          else (store, false)
  }

  /** A file processed again, because moving it failed the first time, adds
      no record and changes no attribute: only `updated_at` moves. */
  lemma ReprocessOnlyRefreshes(store: Store, name: string, e1: Env, e2: Env)
    requires e1.read(name) == e2.read(name) && e1.freeForm == e2.freeForm && e1.today == e2.today
    requires e1.accepts(name) == e2.accepts(name)
    requires FileAccepted(name, e1) && FileAccepted(name, e2)
    ensures var once := ProcessFile(store, name, e1).0;
            var twice := ProcessFile(once, name, e2).0;
            twice.Keys == once.Keys &&
            forall k :: k in once ==> twice[k] == once[k].(updatedAt := twice[k].updatedAt)
  {
    var t := e1.read(name).value;
    var cols := NormalizeHeader(t.header);
    var m := SubstringMapping(cols).value;
    var writes := FileWrites(cols, m, t.rows, DateChain(e1), e1.accepts(name));
    UpsertAllAgain(store, writes, e1.txTime(name), e2.txTime(name));
  }

  /** `f"{timestamp}_{name}"`: the original name survives after the stamp. */
  function ArchiveName(stamp: DateTime, name: string): (r: string)
    ensures |r| == 16 + |name| && r[..15] == StampText(stamp) && r[15] == '_' && r[16..] == name
  {
    StampText(stamp) + "_" + name
  }

  lemma ArchiveNamesDistinct(s1: DateTime, n1: string, s2: DateTime, n2: string)
    requires n1 != n2
    ensures ArchiveName(s1, n1) != ArchiveName(s2, n2)
  {
    assert ArchiveName(s1, n1)[16..] == n1;
    assert ArchiveName(s2, n2)[16..] == n2;
  }

  /** The database and the two directories. */
  datatype State = State(store: Store, input: set<string>, processed: set<string>)

  /** The file leaves the input directory when processing succeeds and so
      does the rename. */
  predicate Moves(name: string, env: Env) {
    FileAccepted(name, env) && env.renames(name)
  }

  /** One pass of the monitor loop over the files `glob` listed, in order:
      process each, and move it when that returned `True`. A rename of a
      file that is no longer there raises and is only logged. */
  function Scan(st: State, files: seq<string>, env: Env): (r: State)
    ensures Keyed(st.store) ==> Keyed(r.store)
  {
    if files == [] then st
    else ScanStep(Scan(st, files[..|files| - 1], env), files[|files| - 1], env)
  }

  /** The pass's treatment of one file. */
  function ScanStep(st: State, f: string, env: Env): (r: State)
    ensures Keyed(st.store) ==> Keyed(r.store)
  {
    var (store, ok) := ProcessFile(st.store, f, env);
    if ok && env.renames(f) && f in st.input then
      State(store, st.input - {f}, st.processed + {ArchiveName(env.clock(f), f)})
    else
      State(store, st.input, st.processed)
  }

  /** After a pass a file is still waiting exactly when it was waiting and
      the pass did not both process and rename it: a file that failed is taken
      up again on the next pass. */
  lemma {:induction false} ScanInput(st: State, files: seq<string>, env: Env, g: string)
    ensures g in Scan(st, files, env).input <==> g in st.input && !(g in files && Moves(g, env))
    decreases |files|
  {
    if files != [] {
      var init := files[..|files| - 1];
      ScanInput(st, init, env, g);
      assert files == init + [files[|files| - 1]];
    }
  }

  /** After a pass the processed directory holds what it held before plus,
      for each waiting file the pass processed and renamed, its stamped name;
      the original name is the part after the stamp. */
  lemma {:induction false} ScanProcessed(st: State, files: seq<string>, env: Env, a: string)
    ensures a in Scan(st, files, env).processed <==>
              a in st.processed ||
              (|a| >= 16 && a[16..] in files && a[16..] in st.input && Moves(a[16..], env) &&
               a == ArchiveName(env.clock(a[16..]), a[16..]))
    decreases |files|
  {
    if files != [] {
      var init, f := files[..|files| - 1], files[|files| - 1];
      ScanProcessed(st, init, env, a);
      ScanInput(st, init, env, f);
      assert files == init + [f];
      var arch := ArchiveName(env.clock(f), f);
      assert arch[16..] == f;
    }
  }

  /** One step of the row loop: a row without a write leaves the batch as it
      was, and a row with one adds it to the batch and upserts it. */
  lemma StageSnoc(store: Store, rows: seq<seq<Cell>>, i: nat, write: Writer, writes: seq<Incoming>,
                  w: Option<Incoming>, staged: Store, now: int)
    requires i < |rows| && writes == Writes(rows[..i], write) && w == write(rows[i], |writes| + 1)
    requires staged == UpsertAll(store, writes, now)
    ensures w.None? ==> Writes(rows[..i + 1], write) == writes
    ensures w.Some? ==> Writes(rows[..i + 1], write) == writes + [w.value] &&
                        UpsertAll(store, writes + [w.value], now) == Upsert(staged, w.value, now)
  {
    WritesSnoc(rows, i, write, writes, w);
    if w.Some? {
      UpsertAllSnoc(store, writes, w.value, now);
    }
  }

  /** The row loop of `process_csv_file`, given how one row is written
      (`RowWriter` for the file): each row that yields a write is upserted
      into the open transaction, and the success counter numbers the
      generated ids. What the transaction holds at the end is the batch of
      writes applied in order. */
  method StageRows(store: Store, rows: seq<seq<Cell>>, write: Writer, now: int) returns (staged: Store)
    ensures staged == UpsertAll(store, Writes(rows, write), now)
  {
    ghost var writes: seq<Incoming> := [];
    staged := store;
    var successCount := 0;
    var i := 0;
    assert rows[..i] == [];
    while i < |rows|
      invariant i <= |rows|
      invariant writes == Writes(rows[..i], write)
      invariant successCount == |writes|
      invariant staged == UpsertAll(store, writes, now)
    {
      var w := write(rows[i], successCount + 1);
      StageSnoc(store, rows, i, write, writes, w, staged, now);
      if w.Some? {
        staged := Upsert(staged, w.value, now);
        writes := writes + [w.value];
        successCount := successCount + 1;
      }
      i := i + 1;
    }
    assert rows[..i] == rows;
  }

  /** The file processor's state: the `clients` table and the names in the
      input and processed directories. */
  class Processor {
    var store: Store
    var inputFiles: set<string>
    var processedFiles: set<string>

    ghost predicate Valid()
      reads this
    {
      Keyed(store)
    }

    constructor(input: set<string>)
      ensures Valid()
      ensures store == map[] && inputFiles == input && processedFiles == {}
    {
      store := map[];
      inputFiles := input;
      processedFiles := {};
    }

    /** `process_csv_file`: rows are written into a transaction that is
        committed at the end; an exception outside the row loop returns
        `False` with nothing committed. */
    method ProcessCsvFile(name: string, env: Env) returns (ok: bool)
      modifies this
      ensures (store, ok) == ProcessFile(old(store), name, env)
      ensures inputFiles == old(inputFiles) && processedFiles == old(processedFiles)
    {
      var table := env.read(name);
      if table.None? {
        return false;
      }
      var cols := NormalizeHeader(table.value.header);
      var mapping := BuildColumnMapping(cols);
      if mapping.None? {
        return false;
      }
      if !env.connects(name) {
        return false;
      }
      var m := mapping.value;
      var staged := StageRows(store, table.value.rows, RowWriter(cols, m, DateChain(env), env.accepts(name)),
                              env.txTime(name));
      if !env.commits(name) {
        return false;
      }
      store := staged;
      return true;
    }

    /** `move_processed_file`: rename into the processed directory under the
        stamped name; a failure is only logged. */
    method MoveProcessedFile(name: string, env: Env)
      modifies this
      ensures env.renames(name) && name in old(inputFiles) ==>
                inputFiles == old(inputFiles) - {name} &&
                processedFiles == old(processedFiles) + {ArchiveName(env.clock(name), name)}
      ensures !(env.renames(name) && name in old(inputFiles)) ==>
                inputFiles == old(inputFiles) && processedFiles == old(processedFiles)
      ensures store == old(store)
    {
      if env.renames(name) && name in inputFiles {
        inputFiles := inputFiles - {name};
        processedFiles := processedFiles + {ArchiveName(env.clock(name), name)};
      }
    }

    /** The body of the monitor loop for one file: process it and, when
        that returned `True`, move it. */
    method ScanFile(name: string, env: Env)
      modifies this
      ensures State(store, inputFiles, processedFiles) ==
              ScanStep(State(old(store), old(inputFiles), old(processedFiles)), name, env)
    {
      var ok := ProcessCsvFile(name, env);
      if ok {
        MoveProcessedFile(name, env);
      }
    }

    /** One pass of `monitor_input_directory` over the listed files. */
    method ScanOnce(files: seq<string>, env: Env)
      requires Valid()
      modifies this
      ensures Valid()
      ensures State(store, inputFiles, processedFiles) ==
              Scan(State(old(store), old(inputFiles), old(processedFiles)), files, env)
    {
      ghost var st0 := State(store, inputFiles, processedFiles);
      var i := 0;
      while i < |files|
        invariant i <= |files|
        invariant State(store, inputFiles, processedFiles) == Scan(st0, files[..i], env)
      {
        assert files[..i + 1][..i] == files[..i] && files[..i + 1][i] == files[i];
        assert Scan(st0, files[..i + 1], env) == ScanStep(Scan(st0, files[..i], env), files[i], env);
        ScanFile(files[i], env);
        i := i + 1;
      }
      assert files[..i] == files;
    }
  }

  // -----------------------------------------------------------------------
  // The row loop as PostgreSQL actually runs it

  /** Every row's INSERT succeeds when row `i` gets the generated number
      `i + 1`, which it does as long as no earlier row failed. */
  predicate RowsSucceed(cols: seq<string>, m: map<string, string>, rows: seq<seq<Cell>>,
                        resolve: string -> DateValue, accepts: Incoming -> bool)
    requires MappingComplete(m)
  {
    forall i :: 0 <= i < |rows| ==> RowWrite(cols, m, rows[i], i + 1, resolve, accepts).Some?
  }

  /** `process_csv_file` as written, against PostgreSQL. A failed INSERT
      aborts the transaction, so every later INSERT of the file fails as
      well, and `commit()` on an aborted transaction rolls it back without
      raising: one failed row discards the whole file, yet the function still
      returns `True` and the file is moved. */
  function ProcessFileAsWritten(store: Store, name: string, env: Env): (r: (Store, bool))
    ensures r.1 == FileAccepted(name, env)
    ensures !r.1 ==> r.0 == store
  {
    match env.read(name)
    case None => (store, false)
    case Some(t) =>
      var cols := NormalizeHeader(t.header);
      match SubstringMapping(cols)
      case None => (store, false)
      case Some(m) =>
        if !env.connects(name) || !env.commits(name) then (store, false)
        else
          var resolve := DateChain(env);
          if RowsSucceed(cols, m, t.rows, resolve, env.accepts(name))
          then (UpsertAll(store, FileWrites(cols, m, t.rows, resolve, env.accepts(name)), env.txTime(name)), true)
          else (store, true)
  }

  /** The date text of row `i` of an accepted file. */
  function RowDateText(name: string, env: Env, i: nat): string
    requires FileAccepted(name, env) && i < |env.read(name).value.rows|
  {
    var t := env.read(name).value;
    var cols := NormalizeHeader(t.header);
    DateText(cols, SubstringMapping(cols).value, t.rows[i])
  }

  /** The INSERT of row `i` of an accepted file, given the generated number
      it would get. */
  function RowInsert(name: string, env: Env, i: nat, autoNumber: nat): Option<Incoming>
    requires FileAccepted(name, env) && i < |env.read(name).value.rows|
  {
    var t := env.read(name).value;
    var cols := NormalizeHeader(t.header);
    RowWrite(cols, SubstringMapping(cols).value, t.rows[i], autoNumber, DateChain(env), env.accepts(name))
  }

  /** As written, one row with an empty date cell makes an accepted file
      commit nothing, although it is reported as processed (and then moved). */
  lemma OneBadDateLosesFile(store: Store, name: string, env: Env, bad: nat)
    requires FileAccepted(name, env) && bad < |env.read(name).value.rows|
    requires RowDateText(name, env, bad) in NaTStrings
    ensures ProcessFileAsWritten(store, name, env) == (store, true)
  {
    var t := env.read(name).value;
    var cols := NormalizeHeader(t.header);
    var m := SubstringMapping(cols).value;
    DateChainFails(env, DateText(cols, m, t.rows[bad]));
    assert RowWrite(cols, m, t.rows[bad], bad + 1, DateChain(env), env.accepts(name)).None?;
    assert !RowsSucceed(cols, m, t.rows, DateChain(env), env.accepts(name));
  }

  /** The writes of an accepted file's rows, each row failing on its own. */
  function AcceptedWrites(name: string, env: Env): seq<Incoming>
    requires FileAccepted(name, env)
  {
    var t := env.read(name).value;
    var cols := NormalizeHeader(t.header);
    FileWrites(cols, SubstringMapping(cols).value, t.rows, DateChain(env), env.accepts(name))
  }

  /** With rows failing one by one, an accepted file commits its writes: the
      new table is the old one with every successful row upserted, every id
      the file writes holds the last write for it stamped with the file's
      transaction time, and a row whose INSERT succeeds is among the writes. */
  lemma GoodRowCommitted(store: Store, name: string, env: Env, good: nat)
    requires FileAccepted(name, env) && good < |env.read(name).value.rows|
    requires forall n :: RowInsert(name, env, good, n).Some?
    ensures var after := ProcessFile(store, name, env).0;
            var ws := AcceptedWrites(name, env);
            after == UpsertAll(store, ws, env.txTime(name)) &&
            (forall w :: w in ws ==> w.clientId in after && after[w.clientId].updatedAt == env.txTime(name)) &&
            exists n :: RowInsert(name, env, good, n).Some? && RowInsert(name, env, good, n).value in ws
  {
    var ws := AcceptedWrites(name, env);
    var after := UpsertAll(store, ws, env.txTime(name));
    assert ProcessFile(store, name, env).0 == after;
    var n := GoodRowInsertWritten(name, env, good);
    forall w | w in ws
      ensures w.clientId in after && after[w.clientId].updatedAt == env.txTime(name)
    {
      var k := w.clientId;
      assert LastIndexOf(ws, k).Some?;
      UpsertAllRecord(store, ws, env.txTime(name), k);
    }
  }

  /** In an accepted file, a row whose INSERT succeeds whatever number it
      gets is among the file's writes. */
  lemma GoodRowInsertWritten(name: string, env: Env, good: nat) returns (n: nat)
    requires FileAccepted(name, env) && good < |env.read(name).value.rows|
    requires forall n :: RowInsert(name, env, good, n).Some?
    ensures RowInsert(name, env, good, n).Some? && RowInsert(name, env, good, n).value in AcceptedWrites(name, env)
  {
    var t := env.read(name).value;
    var cols := NormalizeHeader(t.header);
    var m := SubstringMapping(cols).value;
    forall n
      ensures RowWrite(cols, m, t.rows[good], n, DateChain(env), env.accepts(name)).Some?
    {
      assert RowInsert(name, env, good, n).Some?;
    }
    n := GoodRowWritten(cols, m, t.rows, DateChain(env), env.accepts(name), good);
  }

  /** A row whose INSERT succeeds whatever number it gets is among the
      writes. */
  lemma GoodRowWritten(cols: seq<string>, m: map<string, string>, rows: seq<seq<Cell>>,
                       resolve: string -> DateValue, accepts: Incoming -> bool, good: nat) returns (n: nat)
    requires MappingComplete(m)
    requires good < |rows| && forall n :: RowWrite(cols, m, rows[good], n, resolve, accepts).Some?
    ensures RowWrite(cols, m, rows[good], n, resolve, accepts).Some? &&
            RowWrite(cols, m, rows[good], n, resolve, accepts).value in FileWrites(cols, m, rows, resolve, accepts)
  {
    n := WritesSomeRow(rows, RowWriter(cols, m, resolve, accepts), good);
  }
}
