/**
 The older parsers (parsers.py): a location parser with a fixed six-key
 result, and `get_dtypes` over the parallel lists of `parse_metadata`.
 `parse_metadata` there is the same loop as in utilities/parsers.py and is
 modelled once, as `Parsers.ParseMetadata`.
 */
module LegacyParsers {
  import opened Dicts
  import opened Values
  import Parsers

  /** The keys of the preset result dict, in its order. */
  const LocationKeys: seq<string> := ["latitude", "longitude", "address", "city", "state", "zip"]

  /** The result dict before the loop: every key present, every value `None`. */
  const Preset: Dict<string, Value> :=
    [("latitude", Null), ("longitude", Null), ("address", Null), ("city", Null), ("state", Null), ("zip", Null)]

  /** One pass of the loop body for `key`: `json.loads(location[key])`, with a
      missing key (`KeyError`) giving `None`. Every other exception escapes. */
  function Field(location: Value, key: string, decode: Decoder): Result<Value>
  {
    match Subscript(location, key)
    case Err(e) => if e.KeyError? then Ok(Null) else Err(e)
    case Ok(raw) => JsonLoads(raw, decode)
  }

  lemma PresetKeys()
    ensures Keys(Preset) == LocationKeys
    ensures forall j | 0 <= j < |LocationKeys| :: LocationKeys[j] in ToMap(Preset)
    ensures Distinct(LocationKeys)
  {
    KeysOfDistinct(Preset);
    KeysAgree(Preset);
  }

  /** `parse_location` (older version): the result always has exactly the six
      keys latitude, longitude, address, city, state, zip, in that order; each
      is `None` when `location` lacks it and the decoded `location[key]`
      otherwise. The first key whose lookup or decoding raises anything but a
      `KeyError` ends the call with that error. The branch for
      `'human_address'` can never run: the loop only visits the six preset
      keys, so the address keys are never read from `human_address`. */
  method ParseLocation(location: Value, decode: Decoder) returns (r: Result<Dict<string, Value>>)
    ensures r.Ok? <==> forall j | 0 <= j < |LocationKeys| :: Field(location, LocationKeys[j], decode).Ok?
    ensures r.Ok? ==> Keys(r.value) == LocationKeys
    ensures r.Ok? ==> forall j | 0 <= j < |LocationKeys| ::
      LocationKeys[j] in ToMap(r.value) && ToMap(r.value)[LocationKeys[j]] == Field(location, LocationKeys[j], decode).value
    ensures r.Err? ==> exists j | 0 <= j < |LocationKeys| ::
      && Field(location, LocationKeys[j], decode) == Err(r.error)
      && forall l | 0 <= l < j :: Field(location, LocationKeys[l], decode).Ok?
  {
    var parsedLocation := Preset;
    var addressKeys := ["address", "city", "state", "zip"];
    PresetKeys();
    var keys := Keys(parsedLocation);
    var i := 0;
    while i < |keys|
      invariant 0 <= i <= |keys| == |LocationKeys|
      invariant Keys(parsedLocation) == LocationKeys
      invariant forall j | 0 <= j < |LocationKeys| :: LocationKeys[j] in ToMap(parsedLocation)
      invariant forall j | 0 <= j < i ::
        && Field(location, LocationKeys[j], decode).Ok?
        && ToMap(parsedLocation)[LocationKeys[j]] == Field(location, LocationKeys[j], decode).value
    {
      var key := keys[i];
      if key == "human_address" {
        assert false;
      } else {
        var value := Field(location, key, decode);
        if value.Err? {
          assert LocationKeys[i] == key;
          return Err(value.error);
        }
        assert forall j | 0 <= j < i :: LocationKeys[j] != key;
        Reassign(parsedLocation, key, value.value);
        parsedLocation := parsedLocation + [(key, value.value)];
      }
      i := i + 1;
    }
    return Ok(parsedLocation);
  }

  /** Entry `i` of the loop in `get_dtypes`: the right-hand side
      `parsed_metadata['data_type'][i]` is evaluated first (an `IndexError` when
      that list is shorter), then the key `parsed_metadata['field_name'][i]`,
      which must be hashable. */
  function Entry(parsed: Parsers.Metadata, i: nat): Result<(Value, Value)>
  {
    if i >= |parsed.dataType| || i >= |parsed.fieldName| then Err(IndexError)
    else if Hashable(parsed.fieldName[i]) then Ok((parsed.fieldName[i], parsed.dataType[i]))
    else Err(TypeError)
  }

  function Indices(n: nat): (r: seq<nat>)
    ensures |r| == n && forall i | 0 <= i < n :: r[i] == i
  {
    seq(n, i requires 0 <= i < n => i)
  }

  /** The type dict as the sequence of its assignments, one per index. */
  function DtypesOf(parsed: Parsers.Metadata): Result<Dict<Value, Value>>
  {
    Traverse(Indices(|parsed.fieldName|), i => Entry(parsed, i))
  }

  /** `get_dtypes` (older version): an indexed loop over the field names that
      assigns `field_name[i]` to `data_type[i]`, a later index overriding an
      earlier duplicate. */
  method GetDtypes(parsed: Parsers.Metadata) returns (r: Result<Dict<Value, Value>>)
    ensures r == DtypesOf(parsed)
  {
    var dtypes: Dict<Value, Value> := [];
    var i := 0;
    while i < |parsed.fieldName|
      invariant 0 <= i <= |parsed.fieldName|
      invariant |dtypes| == i
      invariant forall j | 0 <= j < i :: Entry(parsed, j) == Ok(dtypes[j])
    {
      if i >= |parsed.dataType| {
        FirstFailure(Indices(|parsed.fieldName|), j => Entry(parsed, j), i);
        return Err(IndexError);
      }
      if !Hashable(parsed.fieldName[i]) {
        FirstFailure(Indices(|parsed.fieldName|), j => Entry(parsed, j), i);
        return Err(TypeError);
      }
      dtypes := dtypes + [(parsed.fieldName[i], parsed.dataType[i])];
      i := i + 1;
    }
    assert dtypes == DtypesOf(parsed).value;
    return Ok(dtypes);
  }

  /** On the lists `parse_metadata` produces, `field_name[i]` maps to
      `data_type[i]` for every index `i` that no later index repeats. */
  lemma DtypesLastWins(parsed: Parsers.Metadata, dtypes: Dict<Value, Value>, i: nat)
    requires DtypesOf(parsed) == Ok(dtypes)
    requires i < |parsed.fieldName|
    requires forall j | i < j < |parsed.fieldName| :: parsed.fieldName[j] != parsed.fieldName[i]
    ensures parsed.fieldName[i] in ToMap(dtypes) && ToMap(dtypes)[parsed.fieldName[i]] == parsed.dataType[i]
  {
    assert Entry(parsed, i) == Ok(dtypes[i]);
    forall j | i < j < |dtypes| ensures dtypes[j].0 != dtypes[i].0 {
      assert Entry(parsed, j) == Ok(dtypes[j]);
    }
    LastWins(dtypes, i);
  }

  /** Column `i` gives the same entry to both versions of `get_dtypes`. */
  lemma EntryAgrees(rawMetadata: Value, parsed: Parsers.Metadata, i: nat)
    requires Parsers.MetadataOf(rawMetadata) == Ok(parsed)
    requires i < |Parsers.Columns(rawMetadata).value|
    ensures i < |parsed.fieldName|
    ensures Entry(parsed, i) == Parsers.DtypeEntry(Parsers.Columns(rawMetadata).value[i])
  {
    var columns := Parsers.Columns(rawMetadata).value;
    var es := Traverse(columns, Parsers.ColumnEntry).value;
    assert Parsers.ColumnEntry(columns[i]) == Ok(es[i]);
    assert parsed.fieldName[i] == es[i].0 && parsed.dataType[i] == es[i].3;
  }

  /** The two versions agree: `get_dtypes(parse_metadata(m))` of this file is
      the dict `get_dtypes(m)` of utilities/parsers.py builds, key order,
      values and errors included, whenever `parse_metadata(m)` succeeds. */
  lemma DtypesAgree(rawMetadata: Value, parsed: Parsers.Metadata)
    requires Parsers.MetadataOf(rawMetadata) == Ok(parsed)
    ensures DtypesOf(parsed) == Parsers.DtypesOf(rawMetadata)
  {
    var columns := Parsers.Columns(rawMetadata).value;
    var indices := Indices(|parsed.fieldName|);
    assert |indices| == |columns|;
    forall i | 0 <= i < |columns| ensures Entry(parsed, indices[i]) == Parsers.DtypeEntry(columns[i]) {
      EntryAgrees(rawMetadata, parsed, i);
    }
    TraverseAgree(indices, i => Entry(parsed, i), columns, Parsers.DtypeEntry);
  }
}
