/** The database-free dashboard: every CSV file in the input directory is
    read, its columns are lower-cased, stripped and renamed by substring
    match, files lacking a field are skipped, the rest are cleaned and
    concatenated, and the combined rows are deduplicated on
    `(name, country, city)`. */
module DirectoryDashboard {
  import opened Text
  import opened Dates
  import opened Tables
  import opened Schema
  import opened Dedup

  /** One file of the directory listing: its name, what `pd.read_csv` made
      of it (`None` when reading raised) and its modification time as
      `time.ctime` prints it. */
  datatype CsvFile = CsvFile(name: string, content: Option<Table>, modified: string)

  /** One pass of the inner loop: a field already among the columns is left
      alone; otherwise the columns are scanned in order and the first one
      matching the field by substring is renamed to it (`found` is false when
      none matches). */
  method ResolveColumn(cols: seq<string>, field: string) returns (renamed: seq<string>, found: bool)
    ensures (renamed, found) == ResolveField(cols, field)
  {
    if field in cols {
      return cols, true;
    }
    var j := 0;
    while j < |cols|
      invariant j <= |cols|
      invariant forall k :: 0 <= k < j ==> !Matches(field, cols[k])
    {
      if Matches(field, cols[j]) {
        assert FirstMatch(field, cols) == Some(j);
        return RenameColumn(cols, cols[j], field), true;
      }
      j := j + 1;
    }
    assert FirstMatch(field, cols).None?;
    return cols, false;
  }

  /** The renaming loop over `fields` (the required fields, in order): each
      field is resolved against the columns as the previous fields left
      them, and the fields that found no column are collected. */
  method ResolveColumns(cols: seq<string>, fields: seq<string>) returns (renamed: seq<string>, missing: seq<string>)
    ensures (renamed, missing) == ResolveFields(cols, fields)
  {
    renamed, missing := cols, [];
    var i := 0;
    assert fields[0..] == fields;
    while i < |fields|
      invariant i <= |fields|
      invariant ResolveFields(cols, fields).0 == ResolveFields(renamed, fields[i..]).0
      invariant ResolveFields(cols, fields).1 == missing + ResolveFields(renamed, fields[i..]).1
    {
      var field := fields[i];
      assert fields[i..][0] == field && fields[i..][1..] == fields[i + 1..];
      var found;
      ghost var before := missing;
      ghost var rest := ResolveFields(renamed, fields[i..]);
      renamed, found := ResolveColumn(renamed, field);
      if !found {
        missing := missing + [field];
      }
      assert rest.1 == (if found then [] else [field]) + ResolveFields(renamed, fields[i + 1..]).1;
      assert before + rest.1 == missing + ResolveFields(renamed, fields[i + 1..]).1;
      i := i + 1;
    }
    assert missing + [] == missing;
  }

  /** The columns of a file after normalising and renaming. */
  function RenamedHeader(t: Table): seq<string> {
    ResolveFields(NormalizeHeader(t.header), Required).0
  }

  /** The cleaned rows of one file (no deduplication within the file), or
      `None` when it is skipped: unreadable, or a required field without a
      column after renaming. */
  function FileRows(f: CsvFile, parseDate: string -> Option<Date>): (r: Option<seq<CleanRow>>)
    ensures r.Some? <==> f.content.Some? && ResolveFields(NormalizeHeader(f.content.value.header), Required).1 == []
    ensures r.Some? ==> forall x :: x in r.value ==> x.source == f.name
  {
    match f.content
    case None => None
    case Some(t) =>
      var (cols, missing) := ResolveFields(NormalizeHeader(t.header), Required);
      if missing != [] then None
      else Some(CleanRows(cols, t.rows, parseDate, f.name))
  }

  /** A file is taken exactly when, after renaming, all four fields are
      among its columns. */
  lemma FileTakenIffFieldsPresent(f: CsvFile, parseDate: string -> Option<Date>)
    requires f.content.Some?
    ensures FileRows(f, parseDate).Some? <==> forall fld :: fld in Required ==> fld in RenamedHeader(f.content.value)
  {
    var cols := NormalizeHeader(f.content.value.header);
    ResolvedIffNotMissing(cols);
    var missing := ResolveFields(cols, Required).1;
    if missing != [] {
      assert missing[0] in Required && missing[0] !in RenamedHeader(f.content.value);
    }
  }

  /** A field already among the columns is still there after the renaming
      loop, since no other field's renaming can touch it. */
  lemma {:induction false} PresentFieldStays(cols: seq<string>, fields: seq<string>, f: string)
    requires forall i, j :: 0 <= i < j < |fields| ==> fields[i] != fields[j] && !Matches(fields[i], fields[j])
    requires f in fields && f in cols
    ensures f in ResolveFields(cols, fields).0
    decreases |fields|
  {
    var f0, rest := fields[0], fields[1..];
    var c1 := ResolveField(cols, f0).0;
    assert ResolveFields(cols, fields).0 == ResolveFields(c1, rest).0;
    if f == f0 {
      assert c1 == cols;
      ResolveFieldsExact(c1, rest);
      forall g | g in rest
        ensures !Matches(g, f)
      {
        var j :| 0 <= j < |rest| && rest[j] == g;
        assert fields[j + 1] == g;
      }
    } else {
      assert f in rest;
      var j :| 0 <= j < |rest| && rest[j] == f;
      assert fields[j + 1] == f;
      assert !Matches(f0, f);
      ResolveFieldKeeps(cols, f0, f);
      PresentFieldStays(c1, rest, f);
    }
  }

  /** The required fields are distinct and none matches another. */
  lemma RequiredPairwise()
    ensures forall i, j :: 0 <= i < j < |Required| ==>
              Required[i] != Required[j] && !Matches(Required[i], Required[j])
  {
    RequiredNamesDisjoint();
    forall i, j | 0 <= i < j < |Required|
      ensures Required[i] != Required[j] && !Matches(Required[i], Required[j])
    {
      assert Required[i] in Required && Required[j] in Required;
    }
  }

  /** A file whose header already carries the four names (in any case, with
      any surrounding blanks) is taken. */
  lemma CanonicalFileTaken(f: CsvFile, parseDate: string -> Option<Date>)
    requires f.content.Some?
    requires forall fld :: fld in Required ==> fld in NormalizeHeader(f.content.value.header)
    ensures FileRows(f, parseDate).Some?
  {
    var cols := NormalizeHeader(f.content.value.header);
    RequiredPairwise();
    forall fld | fld in Required
      ensures fld in RenamedHeader(f.content.value)
    {
      PresentFieldStays(cols, Required, fld);
    }
    FileTakenIffFieldsPresent(f, parseDate);
  }

  /** `all_data`: the rows of the taken files, in listing order. */
  function Frames(files: seq<CsvFile>, parseDate: string -> Option<Date>): (r: seq<seq<CleanRow>>)
    ensures |r| <= |files|
  {
    if files == [] then []
    else
      var before := Frames(files[..|files| - 1], parseDate);
      match FileRows(files[|files| - 1], parseDate)
      case None => before
      case Some(rows) => before + [rows]
  }

  /** `file_info`: one entry per taken file, counting its rows before the
      combined deduplication. */
  function Infos(files: seq<CsvFile>, parseDate: string -> Option<Date>): (r: seq<FileInfo>)
    ensures |r| == |Frames(files, parseDate)|
    ensures forall i :: 0 <= i < |r| ==> r[i].records == |Frames(files, parseDate)[i]|
  {
    if files == [] then []
    else
      var f := files[|files| - 1];
      var before := Infos(files[..|files| - 1], parseDate);
      match FileRows(f, parseDate)
      case None => before
      case Some(rows) => before + [FileInfo(f.name, |rows|, f.modified)]
  }

  /** What `load_data_from_csv` returns, with the new `file_info` when it
      stores one: nothing is stored when the directory is missing, holds no
      CSV file, or no file was taken. */
  function Load(dirExists: bool, files: seq<CsvFile>, parseDate: string -> Option<Date>)
    : (r: (seq<CleanRow>, Option<seq<FileInfo>>))
    ensures r.1.Some? <==> dirExists && Frames(files, parseDate) != []
    ensures r.1.None? ==> r.0 == []
    ensures r.1.Some? ==> r.1.value == Infos(files, parseDate)
    ensures r.1.Some? ==> |r.1.value| == |Frames(files, parseDate)|
    ensures forall i, j :: 0 <= i < j < |r.0| ==> Identity(r.0[i]) != Identity(r.0[j])
  {
    if !dirExists || files == [] then ([], None)
    else
      var frames := Frames(files, parseDate);
      if frames == [] then ([], None)
      else (DropDuplicates(Flatten(frames), Identity), Some(Infos(files, parseDate)))
  }

  /** The combined rows are the first row of every triple over the taken
      files in listing order: nothing is lost but repeats, and of two files
      sharing a triple the earlier one supplies it. */
  lemma LoadKeepsFirstOfEachTriple(dirExists: bool, files: seq<CsvFile>, parseDate: string -> Option<Date>)
    requires dirExists
    ensures Load(dirExists, files, parseDate).0 == KeepFirst(Flatten(Frames(files, parseDate)), Identity)
    ensures Keys(Load(dirExists, files, parseDate).0, Identity) == Keys(Flatten(Frames(files, parseDate)), Identity)
  {
    var frames := Frames(files, parseDate);
    DropDuplicatesIsKeepFirst(Flatten(frames), Identity);
    if files == [] || frames == [] {
      assert Flatten(frames) == [];
    }
  }

  /** The frames and file list of the first `i + 1` files are those of the
      first `i`, followed by file `i`'s entry when it is taken. */
  lemma FramesSnoc(files: seq<CsvFile>, i: nat, parseDate: string -> Option<Date>)
    requires i < |files|
    ensures FileRows(files[i], parseDate).None? ==>
              Frames(files[..i + 1], parseDate) == Frames(files[..i], parseDate) &&
              Infos(files[..i + 1], parseDate) == Infos(files[..i], parseDate)
    ensures FileRows(files[i], parseDate).Some? ==>
              var rows := FileRows(files[i], parseDate).value;
              Frames(files[..i + 1], parseDate) == Frames(files[..i], parseDate) + [rows] &&
              Infos(files[..i + 1], parseDate) == Infos(files[..i], parseDate) + [FileInfo(files[i].name, |rows|, files[i].modified)]
  {
    assert files[..i + 1][..i] == files[..i] && files[..i + 1][i] == files[i];
  }

  /** The per-file loop of `load_data_from_csv`, with its `continue` for a
      file that cannot be read or lacks a field. */
  method ReadFiles(files: seq<CsvFile>, parseDate: string -> Option<Date>)
    returns (allData: seq<seq<CleanRow>>, info: seq<FileInfo>)
    ensures allData == Frames(files, parseDate)
    ensures info == Infos(files, parseDate)
  {
    allData, info := [], [];
    var i := 0;
    while i < |files|
      invariant i <= |files|
      invariant allData == Frames(files[..i], parseDate)
      invariant info == Infos(files[..i], parseDate)
    {
      var f := files[i];
      FramesSnoc(files, i, parseDate);
      if f.content.None? {
        i := i + 1;
        continue;
      }
      var cols, missing := ResolveColumns(NormalizeHeader(f.content.value.header), Required);
      if missing != [] {
        i := i + 1;
        continue;
      }
      var rows := CleanRows(cols, f.content.value.rows, parseDate, f.name);
      allData := allData + [rows];
      info := info + [FileInfo(f.name, |rows|, f.modified)];
      i := i + 1;
    }
    assert files[..i] == files;
  }

  /** The dashboard's session: the last stored `file_info`. */
  class Dashboard {
    var fileInfo: seq<FileInfo>

    constructor ()
      ensures fileInfo == []
    {
      fileInfo := [];
    }

    /** `load_data_from_csv`: the directory check, the per-file loop with
        its `continue` and per-file error handling, the combined
        deduplication and the session update. */
    method LoadDataFromCsv(dirExists: bool, files: seq<CsvFile>, parseDate: string -> Option<Date>)
      returns (combined: seq<CleanRow>)
      modifies this
      ensures combined == Load(dirExists, files, parseDate).0
      ensures fileInfo == match Load(dirExists, files, parseDate).1
                          case None => old(fileInfo)
                          case Some(info) => info
    {
      if !dirExists || files == [] {
        return [];
      }
      var allData, info := ReadFiles(files, parseDate);
      if allData == [] {
        return [];
      }
      combined := DropDuplicates(Flatten(allData), Identity);
      fileInfo := info;
    }
  }
}
