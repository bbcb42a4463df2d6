/** The upload dashboard's ingestion: each uploaded CSV is normalised
    through the alias table, checked for the four fields, cleaned and
    deduplicated on `(name, country, city)`; the surviving files are
    concatenated and deduplicated again. Also the country-code lookup the
    map view uses. */
module UploadPipeline {
  import opened Text
  import opened Dates
  import opened Tables
  import opened Schema
  import opened Dedup

  /** One uploaded file: its name, what `pd.read_csv` made of it (`None`
      when it raised) and the clock reading taken for its `file_info` entry. */
  datatype Upload = Upload(name: string, content: Option<Table>, uploadTime: string)

  /** The rows one upload contributes, or `None` when it is skipped (read
      error or a required field missing after the alias renaming). */
  function FileFrame(u: Upload, parseDate: string -> Option<Date>): (r: Option<seq<CleanRow>>)
    ensures r.Some? <==> u.content.Some? &&
                         MissingRequired(ApplyAliases(NormalizeHeader(u.content.value.header))) == []
    ensures r.Some? ==> forall i, j :: 0 <= i < j < |r.value| ==> Identity(r.value[i]) != Identity(r.value[j])
    ensures r.Some? ==> forall x :: x in r.value ==> x.source == u.name
  {
    match u.content
    case None => None
    case Some(t) =>
      var cols := ApplyAliases(NormalizeHeader(t.header));
      if MissingRequired(cols) != [] then None
      else Some(DropDuplicates(CleanRows(cols, t.rows, parseDate, u.name), Identity))
  }

  /** The cleaned rows of an upload before its own deduplication. */
  function RawFrame(u: Upload, parseDate: string -> Option<Date>): seq<CleanRow>
    requires FileFrame(u, parseDate).Some?
  {
    CleanRows(ApplyAliases(NormalizeHeader(u.content.value.header)), u.content.value.rows, parseDate, u.name)
  }

  /** `all_data`: the frames of the accepted uploads, in upload order. */
  function Frames(us: seq<Upload>, parseDate: string -> Option<Date>): (r: seq<seq<CleanRow>>)
    ensures |r| <= |us|
  {
    if us == [] then []
    else
      var before := Frames(us[..|us| - 1], parseDate);
      match FileFrame(us[|us| - 1], parseDate)
      case None => before
      case Some(f) => before + [f]
  }

  /** The same frames without the per-file deduplication. */
  function RawFrames(us: seq<Upload>, parseDate: string -> Option<Date>): (r: seq<seq<CleanRow>>)
    ensures |r| == |Frames(us, parseDate)|
  {
    if us == [] then []
    else
      var before := RawFrames(us[..|us| - 1], parseDate);
      if FileFrame(us[|us| - 1], parseDate).None? then before
      else before + [RawFrame(us[|us| - 1], parseDate)]
  }

  /** `file_info`: one entry per accepted upload. */
  function Infos(us: seq<Upload>, parseDate: string -> Option<Date>): (r: seq<FileInfo>)
    ensures |r| == |Frames(us, parseDate)|
    ensures forall i :: 0 <= i < |r| ==> r[i].records == |Frames(us, parseDate)[i]|
  {
    if us == [] then []
    else
      var u := us[|us| - 1];
      var before := Infos(us[..|us| - 1], parseDate);
      match FileFrame(u, parseDate)
      case None => before
      case Some(f) => before + [FileInfo(u.name, |f|, u.uploadTime)]
  }

  /** What `process_uploaded_files` returns: the combined rows and the file
      list, or two empty values when no upload was accepted. */
  function UploadResult(us: seq<Upload>, parseDate: string -> Option<Date>): (r: (seq<CleanRow>, seq<FileInfo>))
    ensures r.1 == [] <==> Frames(us, parseDate) == []
    ensures Frames(us, parseDate) == [] ==> r.0 == []
    ensures Frames(us, parseDate) != [] ==> r.1 == Infos(us, parseDate)
    ensures forall i, j :: 0 <= i < j < |r.0| ==> Identity(r.0[i]) != Identity(r.0[j])
  {
    var frames := Frames(us, parseDate);
    if frames == [] then ([], [])
    else (DropDuplicates(Flatten(frames), Identity), Infos(us, parseDate))
  }

  /** Deduplicating each file first makes no difference: the combined rows
      are the first occurrence of each triple over all accepted uploads, in
      upload order. */
  lemma {:induction false} FramesAreDeduplicatedRaw(us: seq<Upload>, parseDate: string -> Option<Date>)
    ensures Frames(us, parseDate) == DropDuplicatesEach(RawFrames(us, parseDate), Identity)
    decreases |us|
  {
    if us != [] {
      var init, u := us[..|us| - 1], us[|us| - 1];
      FramesAreDeduplicatedRaw(init, parseDate);
      if FileFrame(u, parseDate).Some? {
        var raw := RawFrames(init, parseDate);
        assert RawFrames(us, parseDate) == raw + [RawFrame(u, parseDate)];
        assert DropDuplicatesEach(raw + [RawFrame(u, parseDate)], Identity) ==
               DropDuplicatesEach(raw, Identity) + [DropDuplicates(RawFrame(u, parseDate), Identity)];
      }
    }
  }

  lemma CombinedIgnoresPerFileDedup(us: seq<Upload>, parseDate: string -> Option<Date>)
    requires Frames(us, parseDate) != []
    ensures UploadResult(us, parseDate).0 == DropDuplicates(Flatten(RawFrames(us, parseDate)), Identity)
  {
    FramesAreDeduplicatedRaw(us, parseDate);
    PerFileDedupRedundant(RawFrames(us, parseDate), Identity);
  }

  /** Every triple of an accepted upload is represented in the result. */
  lemma CombinedKeepsEveryTriple(us: seq<Upload>, parseDate: string -> Option<Date>)
    requires Frames(us, parseDate) != []
    ensures Keys(UploadResult(us, parseDate).0, Identity) == Keys(Flatten(RawFrames(us, parseDate)), Identity)
  {
    CombinedIgnoresPerFileDedup(us, parseDate);
  }

  /** The frames and file list of the first `i + 1` uploads are those of
      the first `i`, followed by upload `i`'s entry when it is accepted. */
  lemma FramesSnoc(us: seq<Upload>, i: nat, parseDate: string -> Option<Date>)
    requires i < |us|
    ensures FileFrame(us[i], parseDate).None? ==>
              Frames(us[..i + 1], parseDate) == Frames(us[..i], parseDate) &&
              Infos(us[..i + 1], parseDate) == Infos(us[..i], parseDate)
    ensures FileFrame(us[i], parseDate).Some? ==>
              var f := FileFrame(us[i], parseDate).value;
              Frames(us[..i + 1], parseDate) == Frames(us[..i], parseDate) + [f] &&
              Infos(us[..i + 1], parseDate) == Infos(us[..i], parseDate) + [FileInfo(us[i].name, |f|, us[i].uploadTime)]
  {
    assert us[..i + 1][..i] == us[..i] && us[..i + 1][i] == us[i];
  }

  /** `process_uploaded_files`: the loop with its per-file `continue`. */
  method ProcessUploadedFiles(uploads: seq<Upload>, parseDate: string -> Option<Date>)
    returns (combined: seq<CleanRow>, fileInfo: seq<FileInfo>)
    ensures (combined, fileInfo) == UploadResult(uploads, parseDate)
  {
    var allData: seq<seq<CleanRow>> := [];
    fileInfo := [];
    var i := 0;
    while i < |uploads|
      invariant i <= |uploads|
      invariant allData == Frames(uploads[..i], parseDate)
      invariant fileInfo == Infos(uploads[..i], parseDate)
    {
      var u := uploads[i];
      FramesSnoc(uploads, i, parseDate);
      if u.content.None? {
        i := i + 1;
        continue;
      }
      var cols := ApplyAliases(NormalizeHeader(u.content.value.header));
      var missing := MissingRequired(cols);
      if missing != [] {
        i := i + 1;
        continue;
      }
      var rows := CleanRows(cols, u.content.value.rows, parseDate, u.name);
      var df := DropDuplicates(rows, Identity);
      allData := allData + [df];
      fileInfo := fileInfo + [FileInfo(u.name, |df|, u.uploadTime)];
      i := i + 1;
    }
    assert uploads[..i] == uploads;
    if allData != [] {
      combined := DropDuplicates(Flatten(allData), Identity);
    } else {
      combined, fileInfo := [], [];
    }
  }

  // -----------------------------------------------------------------------
  // Country codes for the map view

  /** The table of known names: `Some(code)` for a listed name. Every code
      has three letters. */
  function TableCode(name: string): (r: Option<string>)
    ensures r.Some? ==> |r.value| == 3
  {
    match name
    case "United States" => Some("USA")
    case "United Kingdom" => Some("GBR")
    case "UK" => Some("GBR")
    case "Germany" => Some("DEU")
    case "France" => Some("FRA")
    case "Italy" => Some("ITA")
    case "Spain" => Some("ESP")
    case "Japan" => Some("JPN")
    case "China" => Some("CHN")
    case "India" => Some("IND")
    case "Brazil" => Some("BRA")
    case "Canada" => Some("CAN")
    case "Australia" => Some("AUS")
    case "Russia" => Some("RUS")
    case "Mexico" => Some("MEX")
    case "Argentina" => Some("ARG")
    case "South Korea" => Some("KOR")
    case "Netherlands" => Some("NLD")
    case "Switzerland" => Some("CHE")
    case "Sweden" => Some("SWE")
    case "Norway" => Some("NOR")
    case "Egypt" => Some("EGY")
    case "South Africa" => Some("ZAF")
    case "Kenya" => Some("KEN")
    case "Singapore" => Some("SGP")
    case "Thailand" => Some("THA")
    case "Vietnam" => Some("VNM")
    case "Poland" => Some("POL")
    case "Portugal" => Some("PRT")
    case "Greece" => Some("GRC")
    case "Ireland" => Some("IRL")
    case "Morocco" => Some("MAR")
    case "Chile" => Some("CHL")
    case "Peru" => Some("PER")
    case "Colombia" => Some("COL")
    case "Uruguay" => Some("URY")
    case "Ecuador" => Some("ECU")
    case "Bolivia" => Some("BOL")
    case "Venezuela" => Some("VEN")
    case "Paraguay" => Some("PRY")
    case "Guyana" => Some("GUY")
    case "Suriname" => Some("SUR")
    case "Panama" => Some("PAN")
    case "Costa Rica" => Some("CRI")
    case "Nicaragua" => Some("NIC")
    case "Honduras" => Some("HND")
    case "El Salvador" => Some("SLV")
    case "Guatemala" => Some("GTM")
    case "Belize" => Some("BLZ")
    case "Jamaica" => Some("JAM")
    case "Haiti" => Some("HTI")
    case "Dominican Republic" => Some("DOM")
    case "Cuba" => Some("CUB")
    case "Bahamas" => Some("BHS")
    case "Barbados" => Some("BRB")
    case "Trinidad and Tobago" => Some("TTO")
    case "Malta" => Some("MLT")
    case "Cyprus" => Some("CYP")
    case "Iceland" => Some("ISL")
    case "Finland" => Some("FIN")
    case "Estonia" => Some("EST")
    case "Latvia" => Some("LVA")
    case "Lithuania" => Some("LTU")
    case "Belarus" => Some("BLR")
    case "Ukraine" => Some("UKR")
    case "Moldova" => Some("MDA")
    case "Romania" => Some("ROU")
    case "Bulgaria" => Some("BGR")
    case "Serbia" => Some("SRB")
    case "Montenegro" => Some("MNE")
    case "Bosnia and Herzegovina" => Some("BIH")
    case "Croatia" => Some("HRV")
    case "Slovenia" => Some("SVN")
    case "New Zealand" => Some("NZL")
    case _ => None
  }

  /** No lower-case ASCII letter in `s`. */
  predicate NoLowerCase(s: string) {
    forall i :: 0 <= i < |s| ==> !('a' <= s[i] <= 'z')
  }

  /** `get_country_code`: the table's code, or else the first three
      characters upper-cased. */
  function CountryCode(name: string): (r: string)
    ensures |r| <= 3
    ensures TableCode(name).Some? ==> r == TableCode(name).value
    ensures TableCode(name).None? ==> NoLowerCase(r) && |r| == if |name| < 3 then |name| else 3
    ensures TableCode(name).None? ==> forall i :: 0 <= i < |r| ==> r[i] == UpperChar(name[i])
  {
    match TableCode(name)
    case Some(code) => code
    case None => Upper(if |name| < 3 then name else name[..3])
  }

  /** Both spellings of the United Kingdom map to the same code. */
  lemma UnitedKingdomSpellings()
    ensures CountryCode("UK") == CountryCode("United Kingdom") == "GBR"
  {
  }

  /** A name the table does not know is coded by its first three letters, so
      two such names that begin alike share a code. */
  lemma FallbackByPrefix(a: string, b: string)
    requires TableCode(a).None? && TableCode(b).None?
    requires |a| >= 3 && |b| >= 3 && a[..3] == b[..3]
    ensures CountryCode(a) == CountryCode(b)
  {
  }
}
