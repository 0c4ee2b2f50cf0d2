/**
 The current result-normalisation layer (utilities/parsers.py): flattening
 location values, turning the dataset schema into parallel metadata lists and
 a field-name-to-type dict, and expanding every location-typed column of the
 query results into ordinary columns.
 */
module Parsers {
  import opened Dicts
  import opened Values
  import opened Frames

  const HumanAddress := "human_address"
  const LocationType := Str("location")

  // ---------------------------------------------------------------------------
  // parse_location

  /** `d.update(x)` for a value `x` that `json.loads` produced. A JSON object
      is merged; an empty list or string changes nothing; any other string
      fails on its first one-character element; `None` and scalars are not
      iterable. A non-empty list would be read as key/value pairs, which the
      model does not follow. */
  function UpdateWith(d: Dict<string, Value>, x: Value): Result<Dict<string, Value>>
  {
    match x
    case Obj(fields) => Ok(d + fields)
    case Arr(items) => if items == [] then Ok(d) else Err(Unsupported)
    case Str(s) => if s == "" then Ok(d) else Err(ValueError)
    case Null => Err(TypeError)
    case Other(_) => Err(TypeError)
  }

  /** `parse_location`: a copy of the location dict, with the decoded
      `human_address` merged over it when that key is present; anything that
      is not a dict gives the empty dict. */
  function ParseLocation(location: Value, decode: Decoder): Result<Dict<string, Value>>
  {
    if !location.Obj? then Ok([])
    else
      var parsed: Dict<string, Value> := [] + location.fields;
      if HumanAddress !in ToMap(parsed) then Ok(parsed)
      else match JsonLoads(ToMap(parsed)[HumanAddress], decode)
        case Err(e) => Err(e)
        case Ok(address) => UpdateWith(parsed, address)
  }

  /** The outcomes of `parse_location` other than a merge: a non-dict gives
      the empty dict, a dict without `human_address` is returned as it is (same
      keys in the same order, same values), and a `human_address` that is not
      a string or does not decode is an error, not an empty result. */
  lemma ParseLocationCases(location: Value, decode: Decoder)
    ensures !location.Obj? ==> ParseLocation(location, decode) == Ok([])
    ensures location.Obj? && HumanAddress !in ToMap(location.fields) ==>
      ParseLocation(location, decode) == Ok(location.fields)
    ensures location.Obj? && HumanAddress in ToMap(location.fields) ==>
      var address := ToMap(location.fields)[HumanAddress];
      && (!address.Str? ==> ParseLocation(location, decode) == Err(TypeError))
      && (address.Str? && decode(address.s).None? ==> ParseLocation(location, decode) == Err(DecodeError))
  {
    if location.Obj? {
      assert [] + location.fields == location.fields;
    }
  }

  /** A location whose `human_address` decodes to a dict: every input key
      stays, `human_address` included, in its place; every decoded key maps
      to its decoded value, overriding an input entry of the same name; the
      decoded keys new to the input follow in decoded order. */
  lemma {:induction false} HumanAddressMerged(location: Value, decode: Decoder, address: Dict<string, Value>)
    requires location.Obj? && HumanAddress in ToMap(location.fields)
    requires JsonLoads(ToMap(location.fields)[HumanAddress], decode) == Ok(Obj(address))
    ensures ParseLocation(location, decode).Ok?
    ensures var parsed := ParseLocation(location, decode).value;
      && Keys(parsed) == Keys(location.fields) + Keys(Unseen(address, location.fields))
      && (forall k :: k in ToMap(parsed) <==> k in ToMap(location.fields) || k in ToMap(address))
      && (forall k | k in ToMap(address) :: ToMap(parsed)[k] == ToMap(address)[k])
      && (forall k | k in ToMap(location.fields) && k !in ToMap(address) ::
            ToMap(parsed)[k] == ToMap(location.fields)[k])
  {
    var d := location.fields;
    assert [] + d == d;
    ToMapAppend(d, address);
    KeysAppend(d, address);
  }

  /** `results_df[k].apply(parse_location)`: every cell of the column in row
      order; the first failure escapes. */
  function ParseColumn(t: Table, k: string, decode: Decoder): Result<seq<Dict<string, Value>>>
  {
    Traverse(Column(t, k), cell => ParseLocation(cell, decode))
  }

  // ---------------------------------------------------------------------------
  // get_results_df

  /** The suffix `f'_{k}'` of the join for location column `k`. */
  function Suffix(k: string): string
  {
    "_" + k
  }

  /** The label a key of the parsed locations gets once column `k` is
      expanded: suffixed with `_k` when another column already has it. */
  function NewLabel(t: Table, k: string, c: string): string
  {
    if c in t.columns && c != k then c + Suffix(k) else c
  }

  /** One pass of the loop body for a location column `k`: parse every cell,
      build a frame from the parsed dicts, drop `k`, and join the two on row
      position with the suffixes `('', '_k')`. */
  function ExpandLocation(t: Table, k: string, decode: Decoder): (r: Result<Table>)
    requires t.Valid()
    ensures r.Ok? ==> r.value.Valid() && |r.value.rows| == |t.rows|
  {
    match ParseColumn(t, k, decode)
    case Err(e) => Err(e)
    case Ok(parsed) => MergeOnIndex(Drop(t, k), FromRecords(parsed), Suffix(k))
  }

  /** The parsed locations and the expanded frame of one expansion. */
  ghost predicate Expanded(t: Table, k: string, decode: Decoder, parsed: seq<Dict<string, Value>>, out: Table)
  {
    && t.Valid() && k in t.columns
    && ParseColumn(t, k, decode) == Ok(parsed)
    && ExpandLocation(t, k, decode) == Ok(out)
  }

  /** The frame an expansion produces is the join of the frame without `k`
      and the frame of the parsed locations. */
  lemma ExpandedJoin(t: Table, k: string, decode: Decoder, parsed: seq<Dict<string, Value>>, out: Table)
    requires Expanded(t, k, decode, parsed, out)
    ensures MergeOnIndex(Drop(t, k), FromRecords(parsed), Suffix(k)) == Ok(out)
  {
  }

  /** Expanding a location column keeps every row, and row `i` of the parsed
      locations is `parse_location` of row `i`'s cell. */
  lemma ExpandLocationRows(t: Table, k: string, decode: Decoder, parsed: seq<Dict<string, Value>>, out: Table)
    requires Expanded(t, k, decode, parsed, out)
    ensures out.Valid() && |out.rows| == |t.rows| == |parsed|
    ensures forall i | 0 <= i < |t.rows| :: ParseLocation(t.rows[i][k], decode) == Ok(parsed[i])
  {
    forall i | 0 <= i < |t.rows| ensures ParseLocation(t.rows[i][k], decode) == Ok(parsed[i]) {
      assert Column(t, k)[i] == t.rows[i][k];
    }
  }

  /** Expanding a location column keeps every other column under its own
      label with its own values. */
  lemma ExpandLocationKeeps(t: Table, k: string, decode: Decoder, parsed: seq<Dict<string, Value>>, out: Table)
    requires Expanded(t, k, decode, parsed, out)
    ensures forall c | c in t.columns && c != k ::
      c in out.columns && forall i | 0 <= i < |t.rows| :: out.rows[i][c] == t.rows[i][c]
  {
    var left := Drop(t, k);
    ExpandedJoin(t, k, decode, parsed, out);
    forall c | c in t.columns && c != k
      ensures c in out.columns && forall i | 0 <= i < |t.rows| :: out.rows[i][c] == t.rows[i][c]
    {
      assert c in left.columns;
      forall i | 0 <= i < |t.rows| ensures out.rows[i][c] == t.rows[i][c] {
        assert Cell(out.rows[i], c) == Cell(left.rows[i], c);
      }
    }
  }

  /** Key `j` of the parsed-location frame is relabelled as `NewLabel` says. */
  lemma ExpandedLabel(t: Table, k: string, parsed: seq<Dict<string, Value>>, j: nat)
    requires t.Valid() && j < |FromRecords(parsed).columns|
    ensures var c := FromRecords(parsed).columns[j];
      Suffixed(FromRecords(parsed).columns, Drop(t, k).columns, Suffix(k))[j] == NewLabel(t, k, c)
  {
  }

  /** Expanding a location column adds one column per key found in the parsed
      locations (key `j` of their frame here), under that key or, when another
      column already has that label, under `key_k`; it holds each row's value
      for that key, missing where the row's location lacks it. */
  lemma ExpandLocationAdds(t: Table, k: string, decode: Decoder, parsed: seq<Dict<string, Value>>, out: Table, j: nat)
    requires Expanded(t, k, decode, parsed, out)
    requires j < |FromRecords(parsed).columns|
    ensures var c := FromRecords(parsed).columns[j];
      && NewLabel(t, k, c) in out.columns
      && forall i | 0 <= i < |parsed| :: out.rows[i][NewLabel(t, k, c)] == Get(parsed[i], c)
  {
    var left := Drop(t, k);
    var right := FromRecords(parsed);
    var renamed := Suffixed(right.columns, left.columns, Suffix(k));
    var c := right.columns[j];
    ExpandedJoin(t, k, decode, parsed, out);
    ExpandedLabel(t, k, parsed, j);
    assert out.columns[|left.columns| + j] == renamed[j];
    forall i | 0 <= i < |parsed| ensures out.rows[i][renamed[j]] == Get(parsed[i], c) {
      assert Cell(out.rows[i], renamed[j]) == Cell(right.rows[i], c);
    }
  }

  /** Expanding a location column adds nothing but those columns. */
  lemma ExpandLocationOnly(t: Table, k: string, decode: Decoder, parsed: seq<Dict<string, Value>>, out: Table)
    requires Expanded(t, k, decode, parsed, out)
    ensures forall c | c in out.columns ::
      (c in t.columns && c != k) || exists c' | c' in FromRecords(parsed).columns :: c == NewLabel(t, k, c')
  {
    var left := Drop(t, k);
    var right := FromRecords(parsed);
    var renamed := Suffixed(right.columns, left.columns, Suffix(k));
    ExpandedJoin(t, k, decode, parsed, out);
    forall c | c in out.columns && c !in left.columns
      ensures exists c' | c' in right.columns :: c == NewLabel(t, k, c')
    {
      var j :| 0 <= j < |renamed| && renamed[j] == c;
      ExpandedLabel(t, k, parsed, j);
      assert right.columns[j] in right.columns;
    }
  }

  /** A `k` in the expanded frame comes from the parsed locations. */
  lemma ExpandedKeyOrigin(t: Table, k: string, decode: Decoder, parsed: seq<Dict<string, Value>>, out: Table)
    requires Expanded(t, k, decode, parsed, out)
    requires k in out.columns
    ensures k in FromRecords(parsed).columns
  {
    var left := Drop(t, k);
    var right := FromRecords(parsed);
    var renamed := Suffixed(right.columns, left.columns, Suffix(k));
    ExpandedJoin(t, k, decode, parsed, out);
    assert k !in left.columns;
    var j :| 0 <= j < |renamed| && renamed[j] == k;
    ExpandedLabel(t, k, parsed, j);
    assert |right.columns[j] + Suffix(k)| > |k|;
    assert right.columns[j] == k;
  }

  /** The expanded column `k` itself is gone from the result unless a parsed
      location has a key named `k`, which then comes back under `k`. */
  lemma ExpandLocationDrops(t: Table, k: string, decode: Decoder, parsed: seq<Dict<string, Value>>, out: Table)
    requires Expanded(t, k, decode, parsed, out)
    ensures k in out.columns <==> exists i | 0 <= i < |parsed| :: k in ToMap(parsed[i])
  {
    var right := FromRecords(parsed);
    if k in out.columns {
      ExpandedKeyOrigin(t, k, decode, parsed, out);
    }
    if k in right.columns {
      var j :| 0 <= j < |right.columns| && right.columns[j] == k;
      ExpandLocationAdds(t, k, decode, parsed, out, j);
      assert NewLabel(t, k, k) == k;
    }
  }

  /** A key of the type dict that names a location column of the frame:
      `v == 'location' and k in results_df.columns`. */
  predicate IsLocationColumn(t: Table, dtypes: Dict<Value, Value>, k: Value)
  {
    k in ToMap(dtypes) && ToMap(dtypes)[k] == LocationType && k.Str? && k.s in t.columns
  }

  /** The loop of `get_results_df` over the keys `ks` still to visit. */
  function ExpandAll(t: Table, dtypes: Dict<Value, Value>, ks: seq<Value>, decode: Decoder): (r: Result<Table>)
    requires t.Valid()
    ensures r.Ok? ==> r.value.Valid() && |r.value.rows| == |t.rows|
    decreases |ks|
  {
    if ks == [] then Ok(t)
    else if IsLocationColumn(t, dtypes, ks[0]) then
      match ExpandLocation(t, ks[0].s, decode)
      case Err(e) => Err(e)
      case Ok(t') => ExpandAll(t', dtypes, ks[1..], decode)
    else ExpandAll(t, dtypes, ks[1..], decode)
  }

  /** `get_results_df`: the frame of the raw results with every location
      column expanded, visiting the type dict in its iteration order. */
  function ResultsTable(rawResults: seq<Dict<string, Value>>, dtypes: Dict<Value, Value>, decode: Decoder): Result<Table>
  {
    ExpandAll(FromRecords(rawResults), dtypes, Keys(dtypes), decode)
  }

  /** One turn of the loop over the type dict, at key `keys[i]`. */
  lemma ExpandAllStep(t: Table, dtypes: Dict<Value, Value>, keys: seq<Value>, i: nat, decode: Decoder)
    requires t.Valid() && i < |keys|
    ensures ExpandAll(t, dtypes, keys[i..], decode) ==
      if IsLocationColumn(t, dtypes, keys[i]) then
        var e := ExpandLocation(t, keys[i].s, decode);
        if e.Err? then Err(e.error) else ExpandAll(e.value, dtypes, keys[i + 1..], decode)
      else ExpandAll(t, dtypes, keys[i + 1..], decode)
  {
    assert keys[i..][0] == keys[i] && keys[i..][1..] == keys[i + 1..];
  }

  /** `get_results_df`, as the source computes it: a loop over the type dict
      that reassigns the frame. */
  method GetResultsDf(rawResults: seq<Dict<string, Value>>, dtypes: Dict<Value, Value>, decode: Decoder)
    returns (r: Result<Table>)
    ensures r == ResultsTable(rawResults, dtypes, decode)
    ensures r.Ok? ==> r.value.Valid() && |r.value.rows| == |rawResults|
  {
    var resultsDf := FromRecords(rawResults);
    var keys := Keys(dtypes);
    var types := ToMap(dtypes);
    var i := 0;
    while i < |keys|
      invariant 0 <= i <= |keys|
      invariant resultsDf.Valid() && |resultsDf.rows| == |rawResults|
      invariant ExpandAll(resultsDf, dtypes, keys[i..], decode) == ResultsTable(rawResults, dtypes, decode)
    {
      var k := keys[i];
      assert k in types by {
        KeysAgree(dtypes);
      }
      var v := types[k];
      ExpandAllStep(resultsDf, dtypes, keys, i, decode);
      if v == LocationType && k.Str? && k.s in resultsDf.columns {
        var expanded := ExpandLocation(resultsDf, k.s, decode);
        if expanded.Err? {
          return Err(expanded.error);
        }
        resultsDf := expanded.value;
      }
      i := i + 1;
    }
    return Ok(resultsDf);
  }

  /** Location-typed names that are not columns are skipped: with no key of
      the type dict naming a location column, the frame comes back as it is. */
  lemma {:induction false} ExpandAllPassThrough(t: Table, dtypes: Dict<Value, Value>, ks: seq<Value>, decode: Decoder)
    requires t.Valid()
    requires forall j | 0 <= j < |ks| :: !IsLocationColumn(t, dtypes, ks[j])
    ensures ExpandAll(t, dtypes, ks, decode) == Ok(t)
    decreases |ks|
  {
    if ks != [] {
      assert !IsLocationColumn(t, dtypes, ks[0]);
      ExpandAllPassThrough(t, dtypes, ks[1..], decode);
    }
  }

  /** Without a location-typed field among the result columns,
      `get_results_df` is `pd.DataFrame(raw_results)`: same columns, same rows. */
  lemma ResultsPassThrough(rawResults: seq<Dict<string, Value>>, dtypes: Dict<Value, Value>, decode: Decoder)
    requires forall i, c | 0 <= i < |rawResults| && c in ToMap(rawResults[i]) ::
      !(Str(c) in ToMap(dtypes) && ToMap(dtypes)[Str(c)] == LocationType)
    ensures ResultsTable(rawResults, dtypes, decode) == Ok(FromRecords(rawResults))
  {
    var t := FromRecords(rawResults);
    var ks := Keys(dtypes);
    assert forall j | 0 <= j < |ks| :: !IsLocationColumn(t, dtypes, ks[j]);
    ExpandAllPassThrough(t, dtypes, ks, decode);
  }

  /** A type-dict entry declares `c` a location column. */
  predicate LocationTyped(dtypes: Dict<Value, Value>, c: string)
  {
    Str(c) in ToMap(dtypes) && ToMap(dtypes)[Str(c)] == LocationType
  }

  /** A column that the type dict does not declare a location keeps its label
      and its values through every expansion, whatever the expansions add. */
  lemma {:induction false} ExpandAllKeepsColumns(t: Table, dtypes: Dict<Value, Value>, ks: seq<Value>, decode: Decoder, c: string)
    requires t.Valid() && c in t.columns && !LocationTyped(dtypes, c)
    requires ExpandAll(t, dtypes, ks, decode).Ok?
    ensures var out := ExpandAll(t, dtypes, ks, decode).value;
      c in out.columns && forall i | 0 <= i < |t.rows| :: out.rows[i][c] == t.rows[i][c]
    decreases |ks|
  {
    if ks != [] {
      if IsLocationColumn(t, dtypes, ks[0]) {
        var k := ks[0].s;
        var t' := ExpandLocation(t, k, decode).value;
        var parsed := ParseColumn(t, k, decode).value;
        ExpandLocationKeeps(t, k, decode, parsed, t');
        ExpandAllKeepsColumns(t', dtypes, ks[1..], decode, c);
      } else {
        ExpandAllKeepsColumns(t, dtypes, ks[1..], decode, c);
      }
    }
  }

  /** `get_results_df` joins on row position and never drops a row: one output
      row per raw result, and every result column that is not location-typed
      keeps its label and values. */
  lemma ResultsKeepRows(rawResults: seq<Dict<string, Value>>, dtypes: Dict<Value, Value>, decode: Decoder)
    requires ResultsTable(rawResults, dtypes, decode).Ok?
    ensures var out := ResultsTable(rawResults, dtypes, decode).value;
      && |out.rows| == |rawResults|
      && forall i, c | 0 <= i < |rawResults| && c in ToMap(rawResults[i]) && !LocationTyped(dtypes, c) ::
           c in out.columns && out.rows[i][c] == ToMap(rawResults[i])[c]
  {
    var t := FromRecords(rawResults);
    var out := ResultsTable(rawResults, dtypes, decode).value;
    forall i, c | 0 <= i < |rawResults| && c in ToMap(rawResults[i]) && !LocationTyped(dtypes, c)
      ensures c in out.columns && out.rows[i][c] == ToMap(rawResults[i])[c]
    {
      ExpandAllKeepsColumns(t, dtypes, Keys(dtypes), decode, c);
    }
  }

  // ---------------------------------------------------------------------------
  // parse_metadata and get_dtypes

  /** The four parallel lists `parse_metadata` returns. */
  datatype Metadata = Metadata(fieldName: seq<Value>, columnName: seq<Value>, description: seq<Value>, dataType: seq<Value>)

  /** `raw_metadata['columns']`, iterated. */
  function Columns(rawMetadata: Value): Result<seq<Value>>
  {
    match Subscript(rawMetadata, "columns")
    case Err(e) => Err(e)
    case Ok(columns) => Iterate(columns)
  }

  /** One schema column's entries, read in the source's order: `fieldName`,
      `name`, `dataTypeName`, then `description`, whose absence is no error. */
  function ColumnEntry(column: Value): Result<(Value, Value, Value, Value)>
  {
    match Subscript(column, "fieldName")
    case Err(e) => Err(e)
    case Ok(fieldName) =>
      match Subscript(column, "name")
      case Err(e) => Err(e)
      case Ok(name) =>
        match Subscript(column, "dataTypeName")
        case Err(e) => Err(e)
        case Ok(dataType) =>
          var description := match Subscript(column, "description")
            case Ok(d) => d
            case Err(_) => Null;
          Ok((fieldName, name, description, dataType))
  }

  function MetadataOf(rawMetadata: Value): Result<Metadata>
  {
    match Columns(rawMetadata)
    case Err(e) => Err(e)
    case Ok(columns) =>
      match Traverse(columns, ColumnEntry)
      case Err(e) => Err(e)
      case Ok(es) =>
        Ok(Metadata(seq(|es|, i requires 0 <= i < |es| => es[i].0),
                    seq(|es|, i requires 0 <= i < |es| => es[i].1),
                    seq(|es|, i requires 0 <= i < |es| => es[i].2),
                    seq(|es|, i requires 0 <= i < |es| => es[i].3)))
  }

  /** `parse_metadata`: one entry per schema column in each of the four lists,
      in schema order; a missing description becomes `None`; a missing
      `fieldName`, `name` or `dataTypeName` is the `KeyError` of the first
      column that lacks one. */
  method ParseMetadata(rawMetadata: Value) returns (r: Result<Metadata>)
    ensures r == MetadataOf(rawMetadata)
    ensures Columns(rawMetadata).Ok? && r.Ok? ==>
      var columns := Columns(rawMetadata).value;
      && |r.value.fieldName| == |r.value.columnName| == |r.value.description| == |r.value.dataType| == |columns|
      && forall i | 0 <= i < |columns| ::
           && r.value.fieldName[i] == Subscript(columns[i], "fieldName").value
           && r.value.columnName[i] == Subscript(columns[i], "name").value
           && r.value.dataType[i] == Subscript(columns[i], "dataTypeName").value
           && r.value.description[i] == (if Subscript(columns[i], "description").Ok?
                                         then Subscript(columns[i], "description").value else Null)
  {
    var columns := Columns(rawMetadata);
    if columns.Err? {
      return Err(columns.error);
    }
    var fieldName, columnName, description, dataType := [], [], [], [];
    var i := 0;
    while i < |columns.value|
      invariant 0 <= i <= |columns.value|
      invariant |fieldName| == |columnName| == |description| == |dataType| == i
      invariant forall j | 0 <= j < i ::
        ColumnEntry(columns.value[j]) == Ok((fieldName[j], columnName[j], description[j], dataType[j]))
    {
      var column := columns.value[i];
      var f := Subscript(column, "fieldName");
      if f.Err? {
        FirstFailure(columns.value, ColumnEntry, i);
        return Err(f.error);
      }
      var n := Subscript(column, "name");
      if n.Err? {
        FirstFailure(columns.value, ColumnEntry, i);
        return Err(n.error);
      }
      var t := Subscript(column, "dataTypeName");
      if t.Err? {
        FirstFailure(columns.value, ColumnEntry, i);
        return Err(t.error);
      }
      fieldName := fieldName + [f.value];
      columnName := columnName + [n.value];
      dataType := dataType + [t.value];
      var d := Subscript(column, "description");
      if d.Ok? {
        description := description + [d.value];
      } else {
        description := description + [Null];
      }
      i := i + 1;
    }
    r := Ok(Metadata(fieldName, columnName, description, dataType));
    MetadataOfLists(rawMetadata, columns.value, r.value);
    MetadataEntries(rawMetadata, r.value);
  }

  /** Four lists that hold each column's entries at its index are what
      `MetadataOf` computes. */
  lemma MetadataOfLists(rawMetadata: Value, columns: seq<Value>, m: Metadata)
    requires Columns(rawMetadata) == Ok(columns)
    requires |m.fieldName| == |m.columnName| == |m.description| == |m.dataType| == |columns|
    requires forall j | 0 <= j < |columns| ::
      ColumnEntry(columns[j]) == Ok((m.fieldName[j], m.columnName[j], m.description[j], m.dataType[j]))
    ensures MetadataOf(rawMetadata) == Ok(m)
  {
    var es := Traverse(columns, ColumnEntry).value;
    assert m.fieldName == seq(|es|, i requires 0 <= i < |es| => es[i].0);
    assert m.columnName == seq(|es|, i requires 0 <= i < |es| => es[i].1);
    assert m.description == seq(|es|, i requires 0 <= i < |es| => es[i].2);
    assert m.dataType == seq(|es|, i requires 0 <= i < |es| => es[i].3);
  }

  /** The four lists `parse_metadata` returns, column by column. */
  lemma MetadataEntries(rawMetadata: Value, m: Metadata)
    requires MetadataOf(rawMetadata) == Ok(m)
    ensures var columns := Columns(rawMetadata).value;
      && |m.fieldName| == |m.columnName| == |m.description| == |m.dataType| == |columns|
      && forall i | 0 <= i < |columns| ::
           && m.fieldName[i] == Subscript(columns[i], "fieldName").value
           && m.columnName[i] == Subscript(columns[i], "name").value
           && m.dataType[i] == Subscript(columns[i], "dataTypeName").value
           && m.description[i] == (if Subscript(columns[i], "description").Ok?
                                   then Subscript(columns[i], "description").value else Null)
  {
    var columns := Columns(rawMetadata).value;
    var es := Traverse(columns, ColumnEntry).value;
    forall i | 0 <= i < |columns|
      ensures ColumnEntry(columns[i]) == Ok(es[i])
    {
    }
  }

  /** `dtypes[column['fieldName']] = column['dataTypeName']`: Python evaluates
      the right-hand side first, so a missing `dataTypeName` is reported before
      a missing `fieldName`; a list or dict cannot be a key. */
  function DtypeEntry(column: Value): Result<(Value, Value)>
  {
    match Subscript(column, "dataTypeName")
    case Err(e) => Err(e)
    case Ok(dataType) =>
      match Subscript(column, "fieldName")
      case Err(e) => Err(e)
      case Ok(fieldName) => if Hashable(fieldName) then Ok((fieldName, dataType)) else Err(TypeError)
  }

  /** The type dict as the sequence of its assignments, one per column. */
  function DtypesOf(rawMetadata: Value): Result<Dict<Value, Value>>
  {
    match Columns(rawMetadata)
    case Err(e) => Err(e)
    case Ok(columns) => Traverse(columns, DtypeEntry)
  }

  /** `get_dtypes`: a loop that assigns one entry per schema column. */
  method GetDtypes(rawMetadata: Value) returns (r: Result<Dict<Value, Value>>)
    ensures r == DtypesOf(rawMetadata)
  {
    var columns := Columns(rawMetadata);
    if columns.Err? {
      return Err(columns.error);
    }
    var dtypes: Dict<Value, Value> := [];
    var i := 0;
    while i < |columns.value|
      invariant 0 <= i <= |columns.value|
      invariant |dtypes| == i
      invariant forall j | 0 <= j < i :: DtypeEntry(columns.value[j]) == Ok(dtypes[j])
    {
      var column := columns.value[i];
      var dataType := Subscript(column, "dataTypeName");
      if dataType.Err? {
        FirstFailure(columns.value, DtypeEntry, i);
        return Err(dataType.error);
      }
      var fieldName := Subscript(column, "fieldName");
      if fieldName.Err? {
        FirstFailure(columns.value, DtypeEntry, i);
        return Err(fieldName.error);
      }
      if !Hashable(fieldName.value) {
        FirstFailure(columns.value, DtypeEntry, i);
        return Err(TypeError);
      }
      dtypes := dtypes + [(fieldName.value, dataType.value)];
      i := i + 1;
    }
    assert dtypes == Traverse(columns.value, DtypeEntry).value;
    return Ok(dtypes);
  }

  /** Assignment `i` of the type dict is column `i`'s field name and type. */
  lemma DtypeAt(rawMetadata: Value, dtypes: Dict<Value, Value>, i: nat)
    requires DtypesOf(rawMetadata) == Ok(dtypes)
    requires i < |Columns(rawMetadata).value| || i < |dtypes|
    ensures var columns := Columns(rawMetadata).value;
      && |dtypes| == |columns|
      && Subscript(columns[i], "fieldName") == Ok(dtypes[i].0)
      && Subscript(columns[i], "dataTypeName") == Ok(dtypes[i].1)
  {
    var columns := Columns(rawMetadata).value;
    assert DtypeEntry(columns[i]) == Ok(dtypes[i]);
  }

  /** The type dict holds exactly the field names of the schema, and
      iterating it visits each of them once. */
  lemma DtypesKeys(rawMetadata: Value, dtypes: Dict<Value, Value>)
    requires DtypesOf(rawMetadata) == Ok(dtypes)
    ensures Distinct(Keys(dtypes)) && forall k :: k in Keys(dtypes) <==> k in ToMap(dtypes)
    ensures var columns := Columns(rawMetadata).value;
      forall k :: k in ToMap(dtypes) <==> exists i | 0 <= i < |columns| :: Subscript(columns[i], "fieldName") == Ok(k)
  {
    var columns := Columns(rawMetadata).value;
    KeysAgree(dtypes);
    forall k ensures k in ToMap(dtypes) <==> exists i | 0 <= i < |columns| :: Subscript(columns[i], "fieldName") == Ok(k) {
      InMap(dtypes, k);
      if k in ToMap(dtypes) {
        var i :| 0 <= i < |dtypes| && dtypes[i].0 == k;
        DtypeAt(rawMetadata, dtypes, i);
      }
      if exists i | 0 <= i < |columns| :: Subscript(columns[i], "fieldName") == Ok(k) {
        var i :| 0 <= i < |columns| && Subscript(columns[i], "fieldName") == Ok(k);
        DtypeAt(rawMetadata, dtypes, i);
      }
    }
  }

  /** Each field name maps to the `dataTypeName` of the last schema column
      with that field name. */
  lemma DtypesLastWins(rawMetadata: Value, dtypes: Dict<Value, Value>, i: nat)
    requires DtypesOf(rawMetadata) == Ok(dtypes)
    requires i < |Columns(rawMetadata).value|
    requires var columns := Columns(rawMetadata).value;
      forall j | i < j < |columns| :: Subscript(columns[j], "fieldName") != Subscript(columns[i], "fieldName")
    ensures var columns := Columns(rawMetadata).value;
      && Subscript(columns[i], "fieldName").Ok?
      && Subscript(columns[i], "fieldName").value in ToMap(dtypes)
      && ToMap(dtypes)[Subscript(columns[i], "fieldName").value] == Subscript(columns[i], "dataTypeName").value
  {
    DtypeAt(rawMetadata, dtypes, i);
    forall j | i < j < |dtypes| ensures dtypes[j].0 != dtypes[i].0 {
      DtypeAt(rawMetadata, dtypes, j);
    }
    LastWins(dtypes, i);
  }
}
