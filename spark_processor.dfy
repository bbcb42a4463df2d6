/** The Spark processor: a watcher hands each new `.csv` file to
    `process_csv_file`, which checks the header strictly, keeps the complete
    and distinct five-column records, writes them in one batch, and moves
    the file (under its own name) whenever that batch was non-empty. */
module SparkProcessor {
  import opened Text
  import opened Dates
  import opened Tables
  import opened Schema
  import opened Dedup
  import opened ClientStore

  /** One projected row, every column read as a string. */
  datatype Record = Record(id: string, name: string, country: string, city: string, date: string)

  /** `select("id", "name", "country", "city", "date")` and the `isNotNull`
      filter on one row: `None` when any of the five cells is null. */
  function CompleteRecord(header: seq<string>, row: seq<Cell>): (r: Option<Record>)
    ensures r.None? ==> exists c :: c in SparkRequired && Lookup(header, row, c).None?
    ensures r.Some? ==> Lookup(header, row, "id") == Some(r.value.id) &&
                        Lookup(header, row, "date") == Some(r.value.date)
  {
    var id, name, country := Lookup(header, row, "id"), Lookup(header, row, "name"), Lookup(header, row, "country");
    var city, date := Lookup(header, row, "city"), Lookup(header, row, "date");
    if id.Some? && name.Some? && country.Some? && city.Some? && date.Some? then
      Some(Record(id.value, name.value, country.value, city.value, date.value))
    else
      None
  }

  /** A row yields a record exactly when none of the five cells is null,
      and the record carries those five cells. */
  lemma CompleteRecordCells(header: seq<string>, row: seq<Cell>)
    ensures CompleteRecord(header, row).Some? <==> forall c :: c in SparkRequired ==> Lookup(header, row, c).Some?
    ensures CompleteRecord(header, row).Some? ==>
              CompleteRecord(header, row).value ==
              Record(Lookup(header, row, "id").value, Lookup(header, row, "name").value,
                     Lookup(header, row, "country").value,
                     Lookup(header, row, "city").value, Lookup(header, row, "date").value)
  {
  }

  /** The complete records of a file, in file order. */
  function CompleteRecords(header: seq<string>, rows: seq<seq<Cell>>): (r: seq<Record>)
    ensures |r| <= |rows|
  {
    if rows == [] then []
    else
      var before := CompleteRecords(header, rows[..|rows| - 1]);
      match CompleteRecord(header, rows[|rows| - 1])
      case None => before
      case Some(x) => before + [x]
  }

  /** `CompleteRecords` is `CompleteRecord` kept over the rows. */
  lemma {:induction false} CompleteRecordsAreKept(header: seq<string>, rows: seq<seq<Cell>>)
    ensures CompleteRecords(header, rows) == Kept(rows, (row: seq<Cell>) => CompleteRecord(header, row))
    decreases |rows|
  {
    if rows != [] {
      CompleteRecordsAreKept(header, rows[..|rows| - 1]);
    }
  }

  /** A record is among the complete records exactly when some row yields it. */
  lemma CompleteRecordsMembers(header: seq<string>, rows: seq<seq<Cell>>, x: Record)
    ensures x in CompleteRecords(header, rows) <==>
              exists i :: 0 <= i < |rows| && CompleteRecord(header, rows[i]) == Some(x)
  {
    CompleteRecordsAreKept(header, rows);
    KeptMembers(rows, (row: seq<Cell>) => CompleteRecord(header, row), x);
  }

  function Self(r: Record): Record {
    r
  }

  /** `.distinct()` after the filter. Spark gives no order; the model keeps
      first appearance. */
  function CleanRecords(t: Table): (r: seq<Record>)
    ensures forall i, j :: 0 <= i < j < |r| ==> r[i] != r[j]
  {
    DropDuplicates(CompleteRecords(t.header, t.rows), Self)
  }

  /** The cleaned batch holds every complete five-column row of the file,
      each exactly once, and nothing else: rows that agree on
      `(name, country, city)` but differ in `id` or `date` are all kept. */
  lemma CleanRecordsExact(t: Table, x: Record)
    ensures x in CleanRecords(t) <==>
              exists i :: 0 <= i < |t.rows| && CompleteRecord(t.header, t.rows[i]) == Some(x)
  {
    var xs := CompleteRecords(t.header, t.rows);
    var r := CleanRecords(t);
    CompleteRecordsMembers(t.header, t.rows, x);
    assert Keys(r, Self) == Keys(xs, Self);
    if x in xs {
      assert Self(x) in Keys(xs, Self);
    }
    if x in r {
      assert Self(x) in Keys(r, Self);
    }
  }

  /** Rows per `execute_values` statement. */
  const PageSize: nat := 1000

  /** The values written for a record: its date converted by PostgreSQL's
      text-to-date input, or `None` when that conversion fails. */
  function ToIncoming(x: Record, castDate: string -> Option<Date>): (r: Option<Incoming>)
    ensures r.Some? <==> castDate(x.date).Some?
    ensures r.Some? ==> r.value == Incoming(x.id, x.name, x.country, x.city, castDate(x.date).value)
  {
    match castDate(x.date)
    case None => None
    case Some(d) => Some(Incoming(x.id, x.name, x.country, x.city, d))
  }

  /** Every date of the batch converts. */
  predicate DatesCast(records: seq<Record>, castDate: string -> Option<Date>) {
    forall i :: 0 <= i < |records| ==> castDate(records[i].date).Some?
  }

  function Incomings(records: seq<Record>, castDate: string -> Option<Date>): (r: seq<Incoming>)
    requires DatesCast(records, castDate)
    ensures |r| == |records|
    ensures forall i :: 0 <= i < |records| ==> Some(r[i]) == ToIncoming(records[i], castDate)
  {
    seq(|records|, i requires 0 <= i < |records| => ToIncoming(records[i], castDate).value)
  }

  /** Everything outside the model a run depends on: the Spark reader, the
      connection, whether the statements and commit go through, the
      transaction time, PostgreSQL's date conversion, and the rename. */
  datatype Env = Env(read: string -> Option<Table>, connects: string -> bool, executes: string -> bool,
                     txTime: string -> int, castDate: string -> Option<Date>, renames: string -> bool)

  /** The outcome of `insert_to_database`: the store, and whether an
      exception escaped it. */
  datatype Insert = Insert(store: Store, escaped: bool)

  /** `insert_to_database` as its statement intends: a failed connection
      leaves `conn` unbound, so the handler itself raises and the exception
      escapes; any failure after connecting is rolled back and swallowed;
      otherwise every record is upserted in order, one commit for all. */
  function InsertBatch(store: Store, records: seq<Record>, name: string, env: Env): (r: Insert)
    ensures r.escaped <==> !env.connects(name)
    ensures env.connects(name) && env.executes(name) && DatesCast(records, env.castDate) ==>
              r.store == UpsertAll(store, Incomings(records, env.castDate), env.txTime(name))
    ensures !(env.connects(name) && env.executes(name) && DatesCast(records, env.castDate)) ==>
              r.store == store
  {
    if !env.connects(name) then Insert(store, true)
    else if !env.executes(name) || !DatesCast(records, env.castDate) then Insert(store, false)
    else Insert(UpsertAll(store, Incomings(records, env.castDate), env.txTime(name)), false)
  }

  /** A committed batch leaves under each of its ids the record it carried
      (the ids of a distinct batch can still repeat; the later one wins). */
  lemma InsertBatchWrites(store: Store, records: seq<Record>, name: string, env: Env, i: nat)
    requires env.connects(name) && env.executes(name) && DatesCast(records, env.castDate)
    requires i < |records| && forall j :: i < j < |records| ==> records[j].id != records[i].id
    ensures records[i].id in InsertBatch(store, records, name, env).store
    ensures var rec := InsertBatch(store, records, name, env).store[records[i].id];
            Some(Incoming(rec.clientId, rec.name, rec.country, rec.city, rec.date)) ==
              ToIncoming(records[i], env.castDate) &&
            rec.updatedAt == env.txTime(name)
  {
    var ws := Incomings(records, env.castDate);
    assert LastIndexOf(ws, records[i].id) == Some(i) by {
      assert ws[i].clientId == records[i].id;
      assert forall j :: i < j < |ws| ==> ws[j].clientId == records[j].id;
    }
    UpsertAllRecord(store, ws, env.txTime(name), records[i].id);
  }

  /** No statement of the batch carries the same id twice. */
  predicate PagesIdDistinct(records: seq<Record>) {
    forall i, j :: 0 <= i < j < |records| && i / PageSize == j / PageSize ==> records[i].id != records[j].id
  }

  /** `insert_to_database` against PostgreSQL, which rejects an
      `INSERT ... ON CONFLICT DO UPDATE` that would update the same row twice:
      a statement holding one id twice fails, and the whole batch is rolled
      back. */
  function InsertAsWritten(store: Store, records: seq<Record>, name: string, env: Env): (r: Insert)
    ensures r.escaped <==> !env.connects(name)
    ensures !PagesIdDistinct(records) ==> r.store == store
  {
    if !env.connects(name) then Insert(store, true)
    else if !PagesIdDistinct(records) then Insert(store, false)
    else InsertBatch(store, records, name, env)
  }

  /** The two agree on every batch whose ids are distinct. */
  lemma InsertAgreesOnDistinctIds(store: Store, records: seq<Record>, name: string, env: Env)
    requires forall i, j :: 0 <= i < j < |records| ==> records[i].id != records[j].id
    ensures InsertAsWritten(store, records, name, env) == InsertBatch(store, records, name, env)
  {
  }

  /** The discrepancy: two distinct records sharing an id in one statement
      (a small file where a client appears with two cities) store nothing,
      while the intended upsert stores the later one. */
  lemma RepeatedIdLosesBatch(store: Store, records: seq<Record>, name: string, env: Env, i: nat, j: nat)
    requires env.connects(name) && env.executes(name) && DatesCast(records, env.castDate)
    requires i < j < |records| <= PageSize && records[i].id == records[j].id
    requires forall k :: j < k < |records| ==> records[k].id != records[j].id
    ensures InsertAsWritten(store, records, name, env).store == store
    ensures var rec := InsertBatch(store, records, name, env).store[records[j].id];
            rec.updatedAt == env.txTime(name) && rec.city == records[j].city
  {
    assert i / PageSize == 0 && j / PageSize == 0;
    InsertBatchWrites(store, records, name, env, j);
  }

  /** The two directories and the table. */
  datatype State = State(store: Store, input: set<string>, processed: set<string>)

  /** `process_csv_file`. Every exception is caught and logged: an unreadable
      file, a schema that fails validation, or the escape from a failed
      connection leaves the file where it is. A non-empty batch is written
      and then the file is renamed into the processed directory under its
      own name, whether or not the batch was stored; an empty batch leaves
      the file in place. */
  function ProcessFile(st: State, name: string, env: Env): (r: State)
    ensures r.input == st.input || r.input == st.input - {name}
    ensures r.processed == st.processed + (st.input - r.input)
    ensures Keyed(st.store) ==> Keyed(r.store)
  {
    match env.read(name)
    case None => st
    case Some(t) =>
      if !ValidateSchema(t.header).Valid? then st
      else
        var records := CleanRecords(t);
        if |records| == 0 then st
        else
          var ins := InsertBatch(st.store, records, name, env);
          assert Keyed(st.store) ==> Keyed(ins.store) by {
            if Keyed(st.store) && ins.store != st.store {
              UpsertAllKeepsKeyed(st.store, Incomings(records, env.castDate), env.txTime(name));
            }
          }
          if ins.escaped then State(ins.store, st.input, st.processed)
          else if env.renames(name) && name in st.input then
            State(ins.store, st.input - {name}, st.processed + {name})
          else State(ins.store, st.input, st.processed)
  }

  /** The file leaves the input directory exactly when it was read, passed
      validation, had a complete row, the connection opened and the rename
      went through: a rolled-back batch does not keep it back. */
  lemma ProcessFileMoves(st: State, name: string, env: Env)
    requires name in st.input
    ensures name !in ProcessFile(st, name, env).input <==>
              env.read(name).Some? && ValidateSchema(env.read(name).value.header).Valid? &&
              |CleanRecords(env.read(name).value)| > 0 && env.connects(name) && env.renames(name)
  {
  }

  /** A committed batch leaves under every id it carries the last record
      with that id, stamped with the transaction time. */
  lemma InsertBatchLast(store: Store, records: seq<Record>, name: string, env: Env, x: Record)
    requires env.connects(name) && env.executes(name) && DatesCast(records, env.castDate)
    requires x in records
    ensures var after := InsertBatch(store, records, name, env).store;
            x.id in after && after[x.id].updatedAt == env.txTime(name) &&
            exists i :: 0 <= i < |records| && records[i].id == x.id &&
                        (forall j :: i < j < |records| ==> records[j].id != x.id) &&
                        Some(Incoming(x.id, after[x.id].name, after[x.id].country, after[x.id].city, after[x.id].date)) ==
                          ToIncoming(records[i], env.castDate)
  {
    var ws := Incomings(records, env.castDate);
    var k :| 0 <= k < |records| && records[k] == x;
    assert ws[k].clientId == x.id;
    var i := LastIndexOf(ws, x.id).value;
    assert forall j :: i < j < |records| ==> records[j].id == ws[j].clientId;
    InsertBatchWrites(store, records, name, env, i);
  }

  /** What a file does to the table: when it is read, passes the check, the
      connection opens, the statements go through and every date converts,
      the id of each complete row holds the last cleaned record with that id,
      as written, stamped with the transaction time. */
  lemma ProcessFileStores(st: State, name: string, env: Env, k: nat)
    requires env.read(name).Some? && ValidateSchema(env.read(name).value.header).Valid?
    requires env.connects(name) && env.executes(name)
    requires DatesCast(CleanRecords(env.read(name).value), env.castDate)
    requires k < |env.read(name).value.rows|
    requires CompleteRecord(env.read(name).value.header, env.read(name).value.rows[k]).Some?
    ensures var id := CompleteRecord(env.read(name).value.header, env.read(name).value.rows[k]).value.id;
            var rs := CleanRecords(env.read(name).value);
            var after := ProcessFile(st, name, env).store;
            id in after && after[id].updatedAt == env.txTime(name) &&
            exists i :: 0 <= i < |rs| && rs[i].id == id && (forall j :: i < j < |rs| ==> rs[j].id != id) &&
                        Some(Incoming(id, after[id].name, after[id].country, after[id].city, after[id].date)) ==
                          ToIncoming(rs[i], env.castDate)
  {
    var t := env.read(name).value;
    var x := CompleteRecord(t.header, t.rows[k]).value;
    var rs := CleanRecords(t);
    CleanRecordsExact(t, x);
    InsertBatchLast(st.store, rs, name, env, x);
    ProcessFileInserts(st, name, env);
  }

  /** A valid file with a non-empty batch leaves the table `InsertBatch`
      leaves. */
  lemma ProcessFileInserts(st: State, name: string, env: Env)
    requires env.read(name).Some? && ValidateSchema(env.read(name).value.header).Valid?
    requires |CleanRecords(env.read(name).value)| > 0
    ensures ProcessFile(st, name, env).store == InsertBatch(st.store, CleanRecords(env.read(name).value), name, env).store
  {
  }

  /** A file that fails the schema check changes nothing. */
  lemma InvalidSchemaChangesNothing(st: State, name: string, env: Env)
    requires env.read(name).Some? && ValidateSchema(env.read(name).value.header).MissingColumns?
    ensures ProcessFile(st, name, env) == st
  {
  }

  /** `process_existing_files`: each listed file in turn, nothing when the
      input directory is absent. */
  function ProcessAll(st: State, files: seq<string>, env: Env): (r: State)
    ensures r.input <= st.input
    ensures r.processed == st.processed + (st.input - r.input)
    ensures Keyed(st.store) ==> Keyed(r.store)
  {
    if files == [] then st
    else ProcessFile(ProcessAll(st, files[..|files| - 1], env), files[|files| - 1], env)
  }

  /** Whether `process_csv_file` moves a waiting file: it was read, passed
      validation, had a complete row, the connection opened and the rename
      went through. Nothing here depends on the table or on other files. */
  predicate Moves(name: string, env: Env) {
    env.read(name).Some? && ValidateSchema(env.read(name).value.header).Valid? &&
    |CleanRecords(env.read(name).value)| > 0 && env.connects(name) && env.renames(name)
  }

  /** After a pass over the listed files, a file is still waiting exactly
      when it was waiting and is not a listed file that moves; the processed
      directory gains exactly the files that left, under their own names. */
  lemma {:induction false} ProcessAllInput(st: State, files: seq<string>, env: Env, g: string)
    ensures g in ProcessAll(st, files, env).input <==> g in st.input && !(g in files && Moves(g, env))
    ensures g in ProcessAll(st, files, env).processed <==>
              g in st.processed || (g in st.input && g in files && Moves(g, env))
    decreases |files|
  {
    if files != [] {
      var init, last := files[..|files| - 1], files[|files| - 1];
      var mid := ProcessAll(st, init, env);
      ProcessAllInput(st, init, env, g);
      assert g in files <==> g in init || g == last by {
        assert files == init + [last];
      }
      if g == last && g in mid.input {
        ProcessFileMoves(mid, g, env);
      }
    }
  }

  /** Only listed files leave the input directory. */
  lemma {:induction false} ProcessAllOnlyListed(st: State, files: seq<string>, env: Env, g: string)
    requires g in st.input && g !in files
    ensures g in ProcessAll(st, files, env).input
    decreases |files|
  {
    if files != [] {
      ProcessAllOnlyListed(st, files[..|files| - 1], env, g);
    }
  }

  /** The processor: the `clients` table and the two directories. */
  class DataProcessor {
    var store: Store
    var inputFiles: set<string>
    var processedFiles: set<string>

    ghost predicate Valid()
      reads this
    {
      Keyed(store)
    }

    constructor(input: set<string>)
      ensures Valid()
      ensures store == map[] && inputFiles == input && processedFiles == {}
    {
      store := map[];
      inputFiles := input;
      processedFiles := {};
    }

    /** `insert_to_database`: reports whether an exception escaped. */
    method InsertToDatabase(records: seq<Record>, name: string, env: Env) returns (escaped: bool)
      modifies this
      ensures Insert(store, escaped) == InsertBatch(old(store), records, name, env)
      ensures inputFiles == old(inputFiles) && processedFiles == old(processedFiles)
    {
      if !env.connects(name) {
        return true;
      }
      if env.executes(name) && DatesCast(records, env.castDate) {
        store := UpsertAll(store, Incomings(records, env.castDate), env.txTime(name));
      }
      return false;
    }

    /** `process_csv_file`. */
    method ProcessCsvFile(name: string, env: Env)
      requires Valid()
      modifies this
      ensures Valid()
      ensures State(store, inputFiles, processedFiles) ==
              ProcessFile(State(old(store), old(inputFiles), old(processedFiles)), name, env)
    {
      var table := env.read(name);
      if table.None? {
        return;
      }
      var check := ValidateSchema(table.value.header);
      if !check.Valid? {
        return;
      }
      var records := CleanRecords(table.value);
      if |records| == 0 {
        return;
      }
      ghost var st0 := State(store, inputFiles, processedFiles);
      var escaped := InsertToDatabase(records, name, env);
      if escaped {
        return;
      }
      if env.renames(name) && name in inputFiles {
        inputFiles := inputFiles - {name};
        processedFiles := processedFiles + {name};
      }
      assert State(store, inputFiles, processedFiles) == ProcessFile(st0, name, env);
    }

    /** `process_existing_files` over the files `glob` listed. */
    method ProcessExistingFiles(inputExists: bool, files: seq<string>, env: Env)
      requires Valid()
      modifies this
      ensures Valid()
      ensures inputExists ==>
                State(store, inputFiles, processedFiles) ==
                ProcessAll(State(old(store), old(inputFiles), old(processedFiles)), files, env)
      ensures !inputExists ==>
                store == old(store) && inputFiles == old(inputFiles) && processedFiles == old(processedFiles)
    {
      if !inputExists {
        return;
      }
      ghost var st0 := State(store, inputFiles, processedFiles);
      var i := 0;
      while i < |files|
        invariant i <= |files|
        invariant Valid()
        invariant State(store, inputFiles, processedFiles) == ProcessAll(st0, files[..i], env)
      {
        assert files[..i + 1][..i] == files[..i] && files[..i + 1][i] == files[i];
        ProcessCsvFile(files[i], env);
        i := i + 1;
      }
      assert files[..i] == files;
    }

    /** `CSVFileHandler.on_created`: only a file whose path ends in `.csv` is
        processed. */
    method OnCreated(path: string, isDirectory: bool, env: Env)
      requires Valid()
      modifies this
      ensures Valid()
      ensures !isDirectory && EndsWith(path, ".csv") ==>
                State(store, inputFiles, processedFiles) ==
                ProcessFile(State(old(store), old(inputFiles), old(processedFiles)), path, env)
      ensures !(!isDirectory && EndsWith(path, ".csv")) ==>
                store == old(store) && inputFiles == old(inputFiles) && processedFiles == old(processedFiles)
    {
      if !isDirectory && EndsWith(path, ".csv") {
        ProcessCsvFile(path, env);
      }
    }
  }
}
