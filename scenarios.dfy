/**
 What the model gives on concrete inputs, proved as lemmas: a result row whose
 location carries an encoded `human_address`, and one whose location is null.
 The decoder stays a parameter; each lemma only says what it returns for the
 one string it is given.
 */
module Scenarios {
  import opened Dicts
  import opened Values
  import opened Frames
  import Parsers
  import LegacyParsers

  const AddressText := "{\"address\": \"1 MAIN ST\", \"city\": \"DALLAS\", \"state\": \"TX\", \"zip\": \"75201\"}"

  const Address: Dict<string, Value> :=
    [("address", Str("1 MAIN ST")), ("city", Str("DALLAS")), ("state", Str("TX")), ("zip", Str("75201"))]

  const HumanAddressKey := Parsers.HumanAddress

  const Location: Dict<string, Value> :=
    [("latitude", Str("32.8")), ("longitude", Str("-96.7")), ("human_address", Str(AddressText))]

  /** `incident_id` is text, `loc` is a location. */
  const Dtypes: Dict<Value, Value> := [(Str("incident_id"), Str("text")), (Str("loc"), Str("location"))]

  /** A dict literal with distinct keys holds each key with its own value. */
  lemma {:induction false} Literal<K, V>(d: Dict<K, V>)
    requires forall i, j | 0 <= i < j < |d| :: d[i].0 != d[j].0
    ensures Keys(d) == seq(|d|, i requires 0 <= i < |d| => d[i].0)
    ensures forall i | 0 <= i < |d| :: d[i].0 in ToMap(d) && ToMap(d)[d[i].0] == d[i].1
  {
    KeysOfDistinct(d);
    forall i | 0 <= i < |d| ensures d[i].0 in ToMap(d) && ToMap(d)[d[i].0] == d[i].1 {
      LastWins(d, i);
    }
  }

  /** Parsing the location column of a one-row frame parses its one cell. */
  lemma OneRowColumn(t: Table, k: string, decode: Decoder, cell: Value)
    requires |t.rows| == 1 && Cell(t.rows[0], k) == cell
    ensures Parsers.ParseColumn(t, k, decode) ==
      match Parsers.ParseLocation(cell, decode)
      case Ok(parsed) => Ok([parsed])
      case Err(e) => Err(e)
  {
    var xs := Column(t, k);
    assert xs == [cell];
    var r := Parsers.ParseColumn(t, k, decode);
    if r.Ok? {
      assert r.value == [r.value[0]];
    }
  }

  /** The location parses to its own three entries followed by the four
      decoded address entries; `human_address` stays. */
  lemma LocationParses(decode: Decoder)
    requires decode(AddressText) == Some(Obj(Address))
    ensures Parsers.ParseLocation(Obj(Location), decode) == Ok(Location + Address)
  {
    Literal(Location);
    assert [] + Location == Location;
    assert Location[2].0 == HumanAddressKey;
    ToMapAppend(Location, Address);
  }

  /** A result row with an `incident_id` and a `loc` value. */
  function Record(id: string, loc: Value): Dict<string, Value>
  {
    [("incident_id", Str(id)), ("loc", loc)]
  }

  lemma FlattenOne(d: Dict<string, Value>)
    ensures Flatten([d]) == d
  {
    assert [d][..0] == [];
  }

  /** A frame of one record: the record's keys in order as columns, the
      record's dict as the one row. */
  lemma OneRecord(d: Dict<string, Value>)
    ensures FromRecords([d]).columns == Keys(d)
    ensures FromRecords([d]).rows == [ToMap(d)]
  {
    FlattenOne(d);
    var t := FromRecords([d]);
    assert t.rows[0] == map c | c in Keys(d) :: Get(d, c);
    RowOfKeys(d);
  }

  /** A record read back through its own keys is the record. */
  lemma RowOfKeys(d: Dict<string, Value>)
    ensures (map c | c in Keys(d) :: Get(d, c)) == ToMap(d)
  {
    KeysAgree(d);
  }

  /** The frame of one result row, and the frame without its `loc` column. */
  lemma RecordFrame(id: string, loc: Value)
    ensures var t := FromRecords([Record(id, loc)]);
      && t.columns == ["incident_id", "loc"] && t.rows == [map["incident_id" := Str(id), "loc" := loc]]
      && Drop(t, "loc") == Table(["incident_id"], [map["incident_id" := Str(id)]])
  {
    RecordDict(id, loc);
    OneRecord(Record(id, loc));
    DropLoc(FromRecords([Record(id, loc)]), id, loc);
  }

  /** The result row as a dict. */
  lemma RecordDict(id: string, loc: Value)
    ensures Keys(Record(id, loc)) == ["incident_id", "loc"]
    ensures ToMap(Record(id, loc)) == map["incident_id" := Str(id), "loc" := loc]
  {
    var d: Dict<string, Value> := [];
    var r := Record(id, loc);
    assert r == d + [r[0]] + [r[1]];
    ToMapAppend(d, [r[0]]);
    ToMapAppend(d + [r[0]], [r[1]]);
    assert r[..1] == [r[0]] && [r[0]][..0] == [];
    assert Keys(r[..1]) == ["incident_id"];
  }

  /** Dropping `loc` from the frame of one result row. */
  lemma DropLoc(t: Table, id: string, loc: Value)
    requires t.Valid()
    requires t.columns == ["incident_id", "loc"] && t.rows == [map["incident_id" := Str(id), "loc" := loc]]
    ensures Drop(t, "loc") == Table(["incident_id"], [map["incident_id" := Str(id)]])
  {
    assert t.columns[..1] == ["incident_id"];
    assert ["incident_id"][..0] == [];
    assert Remove(t.columns, "loc") == ["incident_id"];
    assert t.rows[0] - {"loc"} == map["incident_id" := Str(id)];
  }

  /** Iterating the type dict visits `incident_id`, then `loc`. */
  lemma DtypesOrder()
    ensures Keys(Dtypes) == [Str("incident_id"), Str("loc")]
    ensures ToMap(Dtypes) == map[Str("incident_id") := Str("text"), Str("loc") := Str("location")]
  {
    Literal(Dtypes);
  }

  /** `incident_id` is not a location, `loc` is; so the whole loop is one
      expansion of `loc`. */
  lemma OneExpansion(t: Table, decode: Decoder)
    requires t.Valid() && t.columns == ["incident_id", "loc"]
    ensures Parsers.ExpandAll(t, Dtypes, Keys(Dtypes), decode) == Parsers.ExpandLocation(t, "loc", decode)
  {
    DtypesOrder();
    var ks := Keys(Dtypes);
    assert !Parsers.IsLocationColumn(t, Dtypes, ks[0]);
    assert ks[1..] == [Str("loc")];
    assert Parsers.IsLocationColumn(t, Dtypes, Str("loc"));
    assert [Str("loc")][1..] == [];
  }

  /** The result row `{incident_id: id, loc: loc}`, with `loc` parsing to
      `parsed`: the frame without `loc` joined with the frame of `parsed`. */
  lemma ExpandRecord(id: string, loc: Value, decode: Decoder, parsed: Dict<string, Value>)
    requires Parsers.ParseLocation(loc, decode) == Ok(parsed)
    ensures Parsers.ResultsTable([Record(id, loc)], Dtypes, decode) ==
      MergeOnIndex(Table(["incident_id"], [map["incident_id" := Str(id)]]), FromRecords([parsed]), "_loc")
  {
    var t := FromRecords([Record(id, loc)]);
    var left := Table(["incident_id"], [map["incident_id" := Str(id)]]);
    RecordFrame(id, loc);
    OneRowColumn(t, "loc", decode, loc);
    calc {
      Parsers.ResultsTable([Record(id, loc)], Dtypes, decode);
      { OneExpansion(t, decode); }
      Parsers.ExpandLocation(t, "loc", decode);
      { ExpandParsed(t, "loc", decode, [parsed]); }
      MergeOnIndex(Drop(t, "loc"), FromRecords([parsed]), "_" + "loc");
      { assert Drop(t, "loc") == left && "_" + "loc" == "_loc"; }
      MergeOnIndex(left, FromRecords([parsed]), "_loc");
    }
  }

  /** An expansion whose cells parse is the join of the rest with their frame. */
  lemma ExpandParsed(t: Table, k: string, decode: Decoder, parsed: seq<Dict<string, Value>>)
    requires t.Valid() && Parsers.ParseColumn(t, k, decode) == Ok(parsed)
    ensures Parsers.ExpandLocation(t, k, decode) == MergeOnIndex(Drop(t, k), FromRecords(parsed), "_" + k)
  {
  }

  const Labels: seq<string> := ["latitude", "longitude", "human_address", "address", "city", "state", "zip"]

  /** The parsed location iterates its seven keys in order. */
  lemma ParsedKeys()
    ensures Keys(Location + Address) == Labels
  {
    Literal(Location + Address);
  }

  lemma LocationDict()
    ensures ToMap(Location) == map["latitude" := Str("32.8"), "longitude" := Str("-96.7"), "human_address" := Str(AddressText)]
  {
    var d: Dict<string, Value> := [];
    var l := Location;
    ToMapAppend(d, [l[0]]);
    ToMapAppend(d + [l[0]], [l[1]]);
    ToMapAppend(d + [l[0]] + [l[1]], [l[2]]);
    assert l == d + [l[0]] + [l[1]] + [l[2]];
  }

  lemma AddressDict()
    ensures ToMap(Address) ==
      map["address" := Str("1 MAIN ST"), "city" := Str("DALLAS"), "state" := Str("TX"), "zip" := Str("75201")]
  {
    var d: Dict<string, Value> := [];
    var a := Address;
    ToMapAppend(d, [a[0]]);
    ToMapAppend(d + [a[0]], [a[1]]);
    ToMapAppend(d + [a[0]] + [a[1]], [a[2]]);
    ToMapAppend(d + [a[0]] + [a[1]] + [a[2]], [a[3]]);
    assert a == d + [a[0]] + [a[1]] + [a[2]] + [a[3]];
  }

  /** The parsed location as a dict: the seven keys with their values. */
  lemma ParsedDict()
    ensures ToMap(Location + Address) ==
      map["latitude" := Str("32.8"), "longitude" := Str("-96.7"), "human_address" := Str(AddressText),
          "address" := Str("1 MAIN ST"), "city" := Str("DALLAS"), "state" := Str("TX"), "zip" := Str("75201")]
  {
    ToMapAppend(Location, Address);
    LocationDict();
    AddressDict();
  }

  /** The frame of the one parsed location. */
  lemma LocationFrame()
    ensures FromRecords([Location + Address]).columns == Labels
    ensures FromRecords([Location + Address]).rows ==
      [map["latitude" := Str("32.8"), "longitude" := Str("-96.7"), "human_address" := Str(AddressText),
           "address" := Str("1 MAIN ST"), "city" := Str("DALLAS"), "state" := Str("TX"), "zip" := Str("75201")]]
  {
    OneRecord(Location + Address);
    ParsedKeys();
    ParsedDict();
  }

  /** Two label lists whose concatenation is duplicate-free share no label. */
  lemma Disjoint(a: seq<string>, b: seq<string>)
    requires Distinct(a + b)
    ensures forall x | x in b :: x !in a
  {
    forall j, i | 0 <= j < |b| && 0 <= i < |a| ensures a[i] != b[j] {
      assert (a + b)[i] == a[i] && (a + b)[|a| + j] == b[j];
    }
  }

  /** No right label is taken, so none is suffixed. */
  lemma NoneSuffixed(names: seq<string>, taken: seq<string>, suffix: string)
    requires forall x | x in names :: x !in taken
    ensures Suffixed(names, taken, suffix) == names
  {
  }

  /** The joined row has exactly the labels of the two rows. */
  lemma MergedDomain(left: Table, right: Table, suffix: string)
    requires left.Valid() && right.Valid() && |left.rows| == |right.rows| == 1
    requires Distinct(left.columns + right.columns)
    ensures MergeOnIndex(left, right, suffix).Ok?
    ensures var r := MergeOnIndex(left, right, suffix).value;
      r.columns == left.columns + right.columns && |r.rows| == 1 &&
      forall c :: c in r.rows[0] <==> c in left.rows[0] + right.rows[0]
  {
    Disjoint(left.columns, right.columns);
    NoneSuffixed(right.columns, left.columns, suffix);
  }

  /** The joined row holds each of the two rows' values. */
  lemma MergedCells(left: Table, right: Table, suffix: string)
    requires left.Valid() && right.Valid() && |left.rows| == |right.rows| == 1
    requires Distinct(left.columns + right.columns)
    ensures MergeOnIndex(left, right, suffix).Ok?
    ensures var r := MergeOnIndex(left, right, suffix).value;
      forall c | c in left.rows[0] + right.rows[0] :: Cell(r.rows[0], c) == (left.rows[0] + right.rows[0])[c]
  {
    Disjoint(left.columns, right.columns);
    NoneSuffixed(right.columns, left.columns, suffix);
    var r := MergeOnIndex(left, right, suffix).value;
    var row := left.rows[0] + right.rows[0];
    forall c | c in row ensures Cell(r.rows[0], c) == row[c] {
      if c in left.columns {
        assert Cell(r.rows[0], c) == Cell(left.rows[0], c);
      } else {
        var j :| 0 <= j < |right.columns| && right.columns[j] == c;
        assert Cell(r.rows[0], right.columns[j]) == Cell(right.rows[0], right.columns[j]);
      }
    }
  }

  /** Joining two one-row frames with no label in common: the labels side by
      side, and the two rows as one. */
  lemma MergeOneRow(left: Table, right: Table, suffix: string)
    requires left.Valid() && right.Valid() && |left.rows| == |right.rows| == 1
    requires Distinct(left.columns + right.columns)
    ensures MergeOnIndex(left, right, suffix) == Ok(Table(left.columns + right.columns, [left.rows[0] + right.rows[0]]))
  {
    MergedDomain(left, right, suffix);
    MergedCells(left, right, suffix);
    var x := MergeOnIndex(left, right, suffix);
    var row := left.rows[0] + right.rows[0];
    SameRow(x.value.rows[0], row);
    OneRowTable(x, left.columns + right.columns, row);
  }

  lemma SameRow(a: map<string, Value>, b: map<string, Value>)
    requires forall c :: c in a <==> c in b
    requires forall c | c in b :: Cell(a, c) == b[c]
    ensures a == b
  {
    assert forall c | c in a :: a[c] == b[c] by {
      forall c | c in a ensures a[c] == b[c] {
        assert Cell(a, c) == b[c];
      }
    }
  }

  lemma OneRowTable(x: Result<Table>, columns: seq<string>, row: map<string, Value>)
    requires x.Ok? && x.value.columns == columns && |x.value.rows| == 1 && x.value.rows[0] == row
    ensures x == Ok(Table(columns, [row]))
  {
    assert x.value.rows == [row];
  }

  /** The well-formed row: latitude, longitude and the four address fields
      become columns after `incident_id`, and `human_address` is kept as a
      column of its own, between longitude and address. */
  lemma WellFormedRow(decode: Decoder)
    requires decode(AddressText) == Some(Obj(Address))
    ensures Parsers.ResultsTable([Record("1", Obj(Location))], Dtypes, decode) ==
      Ok(Table(["incident_id"] + Labels,
               [map["incident_id" := Str("1"), "latitude" := Str("32.8"), "longitude" := Str("-96.7"),
                    "human_address" := Str(AddressText), "address" := Str("1 MAIN ST"), "city" := Str("DALLAS"),
                    "state" := Str("TX"), "zip" := Str("75201")]]))
  {
    LocationParses(decode);
    ExpandRecord("1", Obj(Location), decode, Location + Address);
    LocationFrame();
    var left := Table(["incident_id"], [map["incident_id" := Str("1")]]);
    var right := FromRecords([Location + Address]);
    LabelsDistinct();
    MergeOneRow(left, right, "_loc");
    RowMerged();
  }

  /** The joined labels are all different. */
  lemma LabelsDistinct()
    ensures Distinct(["incident_id"] + Labels)
  {
  }

  lemma RowMerged()
    ensures map["incident_id" := Str("1")] +
      map["latitude" := Str("32.8"), "longitude" := Str("-96.7"), "human_address" := Str(AddressText),
          "address" := Str("1 MAIN ST"), "city" := Str("DALLAS"), "state" := Str("TX"), "zip" := Str("75201")] ==
      map["incident_id" := Str("1"), "latitude" := Str("32.8"), "longitude" := Str("-96.7"),
          "human_address" := Str(AddressText), "address" := Str("1 MAIN ST"), "city" := Str("DALLAS"),
          "state" := Str("TX"), "zip" := Str("75201")]
  {
  }

  /** The null row: its location parses to the empty dict, so with no other
      row the expansion adds no column at all, and the row keeps only
      `incident_id`. */
  lemma NullRow(decode: Decoder)
    ensures Parsers.ResultsTable([Record("2", Null)], Dtypes, decode) ==
      Ok(Table(["incident_id"], [map["incident_id" := Str("2")]]))
  {
    ExpandRecord("2", Null, decode, []);
    OneRecord([]);
    var left := Table(["incident_id"], [map["incident_id" := Str("2")]]);
    var right := FromRecords([[]]);
    assert Keys<string, Value>([]) == [] && ToMap<string, Value>([]) == map[];
    assert right.columns == [] && right.rows == [map[]];
    assert left.columns + right.columns == left.columns;
    MergeOneRow(left, right, "_loc");
    assert left.rows[0] + right.rows[0] == left.rows[0];
  }

  /** The older `parse_location` on the same location: it never looks inside
      `human_address`, so address, city, state and zip come out `None` while
      the current version reads them from the decoded `human_address`. */
  lemma LegacyIgnoresHumanAddress(decode: Decoder)
    requires decode(AddressText) == Some(Obj(Address))
    ensures forall j | 2 <= j < 6 :: LegacyParsers.Field(Obj(Location), LegacyParsers.LocationKeys[j], decode) == Ok(Null)
    ensures var current := Parsers.ParseLocation(Obj(Location), decode);
      current.Ok? && forall j | 0 <= j < |Address| ::
        Address[j].0 in ToMap(current.value) && ToMap(current.value)[Address[j].0] == Address[j].1
  {
    Literal(Location);
    forall j | 2 <= j < 6 ensures LegacyParsers.Field(Obj(Location), LegacyParsers.LocationKeys[j], decode) == Ok(Null) {
      InMap(Location, LegacyParsers.LocationKeys[j]);
    }
    LocationParses(decode);
    Literal(Location + Address);
    forall j | 0 <= j < |Address|
      ensures Address[j].0 in ToMap(Location + Address) && ToMap(Location + Address)[Address[j].0] == Address[j].1
    {
      assert (Location + Address)[3 + j] == Address[j];
    }
  }
}
