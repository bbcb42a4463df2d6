/** The three ways the repository maps a file's columns to the required
    fields: first substring match (file processor), substring renaming
    (directory dashboard), alias table (upload dashboard), and the strict
    subset check of the Spark processor. */
module Schema {
  import opened Text
  import opened Tables

  /** The fields every variant needs, in the order the code checks them. */
  const Required: seq<string> := ["name", "country", "city", "date"]

  /** `field in col or col in field`. */
  predicate Matches(field: string, col: string) {
    Contains(col, field) || Contains(field, col)
  }

  // ---------------------------------------------------------------------
  // First substring match

  function FirstMatchFrom(field: string, cols: seq<string>, from: nat): (r: Option<nat>)
    requires from <= |cols|
    ensures r.Some? ==> from <= r.value < |cols| && Matches(field, cols[r.value])
    ensures forall j :: from <= j < |cols| && (r.None? || j < r.value) ==> !Matches(field, cols[j])
    decreases |cols| - from
  {
    if from == |cols| then None
    else if Matches(field, cols[from]) then Some(from)
    else FirstMatchFrom(field, cols, from + 1)
  }

  /** The first column, in column order, that matches `field`. */
  function FirstMatch(field: string, cols: seq<string>): (r: Option<nat>)
    ensures r.Some? ==> r.value < |cols| && Matches(field, cols[r.value])
    ensures r.Some? ==> forall j :: 0 <= j < r.value ==> !Matches(field, cols[j])
    ensures r.None? ==> forall j :: 0 <= j < |cols| ==> !Matches(field, cols[j])
  {
    FirstMatchFrom(field, cols, 0)
  }

  /** A column named exactly like the field always matches, so a field is
      found whenever its own name is among the columns. */
  lemma ExactNameIsFound(field: string, cols: seq<string>)
    requires field in cols
    ensures FirstMatch(field, cols).Some?
  {
    var i :| 0 <= i < |cols| && cols[i] == field;
    ContainsSelf(field);
    assert Matches(field, cols[i]);
  }

  /** The file processor's `col_mapping`: each required field mapped to its
      first matching column, or `None` as soon as one field has no match. */
  function SubstringMapping(cols: seq<string>): (r: Option<map<string, string>>)
    ensures r.Some? <==> forall f :: f in Required ==> FirstMatch(f, cols).Some?
    ensures r.Some? ==> r.value.Keys == set f | f in Required
    ensures r.Some? ==> forall f :: f in Required ==>
              f in r.value && r.value[f] == cols[FirstMatch(f, cols).value]
  {
    if forall f :: f in Required ==> FirstMatch(f, cols).Some? then
      Some(map f | f in Required :: cols[FirstMatch(f, cols).value])
    else
      None
  }

  /** A header holding the four canonical names is always accepted. */
  lemma CanonicalHeaderAccepted(cols: seq<string>)
    requires forall f :: f in Required ==> f in cols
    ensures SubstringMapping(cols).Some?
  {
    forall f | f in Required
      ensures FirstMatch(f, cols).Some?
    {
      ExactNameIsFound(f, cols);
    }
  }

  /** The tie-break is column order, not quality of match: an earlier partial
      match wins over a later exact one. */
  lemma EarlierPartialMatchWins()
    ensures FirstMatch("name", ["full_name", "name"]) == Some(0)
  {
    var cols := ["full_name", "name"];
    assert IsPrefix("name", cols[0][5..]);
    assert Matches("name", cols[0]);
  }

  // ---------------------------------------------------------------------
  // Substring renaming (directory dashboard)

  /** `df.rename(columns={from: to})`: every column called `from` is renamed. */
  function RenameColumn(cols: seq<string>, from: string, to: string): (r: seq<string>)
    ensures |r| == |cols|
    ensures forall i :: 0 <= i < |cols| ==> r[i] == if cols[i] == from then to else cols[i]
  {
    seq(|cols|, i requires 0 <= i < |cols| => if cols[i] == from then to else cols[i])
  }

  /** One step of the renaming loop: a field already present is left alone;
      otherwise its first matching column is renamed to it; `false` when
      there is no such column. */
  function ResolveField(cols: seq<string>, field: string): (r: (seq<string>, bool))
    ensures |r.0| == |cols|
    ensures r.1 <==> field in r.0
    ensures r.1 <==> field in cols || FirstMatch(field, cols).Some?
    ensures forall i :: 0 <= i < |cols| && r.0[i] != cols[i] ==> r.0[i] == field
  {
    if field in cols then (cols, true)
    else match FirstMatch(field, cols)
      case None => (cols, false)
      case Some(i) => (RenameColumn(cols, cols[i], field), true)
  }

  /** The renaming loop over `fields`, in order: the renamed columns and the
      fields that found no column. */
  function ResolveFields(cols: seq<string>, fields: seq<string>): (r: (seq<string>, seq<string>))
    ensures |r.0| == |cols|
    ensures forall f :: f in r.1 ==> f in fields
    decreases |fields|
  {
    if fields == [] then (cols, [])
    else
      var (c1, found) := ResolveField(cols, fields[0]);
      var (c2, missing) := ResolveFields(c1, fields[1..]);
      (c2, (if found then [] else [fields[0]]) + missing)
  }

  /** No required field's name matches another's. */
  lemma RequiredNamesDisjoint()
    ensures forall f, g :: f in Required && g in Required && f != g ==> !Matches(f, g)
  {
    NotContainsByMissingChar("name", "country", 0);
    NotContainsByMissingChar("name", "city", 0);
    NotContainsByMissingChar("name", "date", 0);
    NotContainsByMissingChar("country", "name", 1);
    NotContainsByMissingChar("country", "city", 1);
    NotContainsByMissingChar("country", "date", 0);
    NotContainsByMissingChar("city", "name", 0);
    NotContainsByMissingChar("city", "country", 1);
    NotContainsByMissingChar("city", "date", 0);
    NotContainsByMissingChar("date", "name", 0);
    NotContainsByMissingChar("date", "country", 0);
    NotContainsByMissingChar("date", "city", 0);
  }

  /** Renaming for field `f` touches no column called `g` when `g` does not
      match `f`, and creates no column called `g` when `g` is not `f`. */
  lemma ResolveFieldKeeps(cols: seq<string>, f: string, g: string)
    requires g != f && !Matches(f, g)
    ensures g in ResolveField(cols, f).0 <==> g in cols
  {
    if f !in cols && FirstMatch(f, cols).Some? {
      var i := FirstMatch(f, cols).value;
      var r := RenameColumn(cols, cols[i], f);
      assert cols[i] != g;
      if g in cols {
        var k :| 0 <= k < |cols| && cols[k] == g;
        assert r[k] == g;
      }
      if g in r {
        var k :| 0 <= k < |r| && r[k] == g;
        assert cols[k] == g;
      }
    }
  }

  lemma {:induction false} ResolveFieldsExact(cols: seq<string>, fields: seq<string>)
    requires forall i, j :: 0 <= i < j < |fields| ==> fields[i] != fields[j] && !Matches(fields[i], fields[j])
    ensures forall f :: f in fields ==>
              (f in ResolveFields(cols, fields).0 <==> f !in ResolveFields(cols, fields).1)
    ensures forall g :: g !in fields && (forall f :: f in fields ==> !Matches(f, g)) ==>
              (g in ResolveFields(cols, fields).0 <==> g in cols)
    decreases |fields|
  {
    if fields != [] {
      var f0 := fields[0];
      var (c1, found) := ResolveField(cols, f0);
      var rest := fields[1..];
      ResolveFieldsExact(c1, rest);
      var (c2, missing) := ResolveFields(c1, rest);
      assert found <==> f0 in c1 by {
        if f0 !in cols && FirstMatch(f0, cols).Some? {
          var i := FirstMatch(f0, cols).value;
          assert c1[i] == f0;
        }
      }
      forall f | f in rest
        ensures f != f0 && !Matches(f, f0)
      {
        var j :| 0 <= j < |rest| && rest[j] == f;
        assert fields[j + 1] == f;
        assert !Matches(f0, f);
        assert Matches(f, f0) ==> Matches(f0, f);
      }
      assert f0 !in missing;
      forall g | g !in fields && (forall f :: f in fields ==> !Matches(f, g))
        ensures g in c2 <==> g in cols
      {
        ResolveFieldKeeps(cols, f0, g);
      }
    }
  }

  /** After the renaming loop a required field is present exactly when it is
      not reported missing, so a file with nothing missing has all four. */
  lemma ResolvedIffNotMissing(cols: seq<string>)
    ensures forall f :: f in Required ==>
              (f in ResolveFields(cols, Required).0 <==> f !in ResolveFields(cols, Required).1)
  {
    RequiredNamesDisjoint();
    ResolveFieldsExact(cols, Required);
  }

  // ---------------------------------------------------------------------
  // Alias table (upload dashboard)

  /** The upload dashboard's synonyms for the required fields. */
  const Aliases: map<string, string> := map[
    "client_name" := "name", "customer_name" := "name", "full_name" := "name",
    "nation" := "country", "country_name" := "country",
    "location" := "city", "city_name" := "city",
    "timestamp" := "date", "created_date" := "date", "entry_date" := "date"
  ]

  /** `df.rename(columns=column_mapping)`: each listed synonym becomes its
      field; every other column keeps its name. */
  function ApplyAliases(cols: seq<string>): (r: seq<string>)
    ensures |r| == |cols|
    ensures forall i :: 0 <= i < |cols| ==>
              r[i] == if cols[i] in Aliases then Aliases[cols[i]] else cols[i]
  {
    seq(|cols|, i requires 0 <= i < |cols| => if cols[i] in Aliases then Aliases[cols[i]] else cols[i])
  }

  function MissingFrom(fields: seq<string>, cols: seq<string>): (r: seq<string>)
    ensures forall f :: f in r <==> f in fields && f !in cols
  {
    if fields == [] then []
    else (if fields[0] in cols then [] else [fields[0]]) + MissingFrom(fields[1..], cols)
  }

  /** `[col for col in required_cols if col not in df.columns]`. */
  function MissingRequired(cols: seq<string>): (r: seq<string>)
    ensures forall f :: f in r <==> f in Required && f !in cols
    ensures r == [] <==> forall f :: f in Required ==> f in cols
  {
    var r := MissingFrom(Required, cols);
    assert r != [] ==> r[0] in r;
    r
  }

  /** Renaming one canonical column to any of its synonyms gives the same
      normalised header. */
  lemma AliasClosure(cols: seq<string>, i: nat, alias: string)
    requires i < |cols| && cols[i] in Required
    requires alias in Aliases && Aliases[alias] == cols[i]
    ensures ApplyAliases(cols[i := alias]) == ApplyAliases(cols)
  {
    assert cols[i] !in Aliases;
  }

  // ---------------------------------------------------------------------
  // Strict subset check (Spark processor)

  /** The Spark processor's columns; unlike the others it needs `id` too. */
  const SparkRequired: set<string> := {"id", "name", "country", "city", "date"}

  datatype SchemaCheck = Valid | MissingColumns(missing: set<string>)

  /** `validate_csv_schema`: passes exactly when every required column is
      present (names compared as read, with no normalisation); otherwise
      names exactly the absent ones. */
  function ValidateSchema(cols: seq<string>): (r: SchemaCheck)
    ensures r.Valid? <==> SparkRequired <= set c | c in cols
    ensures r.MissingColumns? ==> r.missing == SparkRequired - (set c | c in cols) && r.missing != {}
  {
    var actual := set c | c in cols;
    if SparkRequired <= actual then Valid
    else
      var missing := SparkRequired - actual;
      assert missing != {} by {
        var x :| x in SparkRequired && x !in actual;
        assert x in missing;
      }
      MissingColumns(missing)
  }
}
