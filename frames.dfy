/**
 The three pandas operations the result flattener relies on, restricted to
 what it uses: building a frame from a list of dicts, dropping a column, and
 joining two frames of equal length on their default integer index with the
 suffixes `('', suffix)`.
 */
module Frames {
  import opened Dicts
  import opened Values

  /** A DataFrame with the default index `0 .. |rows| - 1`: ordered column
      labels and one row per index position. */
  datatype Table = Table(columns: seq<string>, rows: seq<map<string, Value>>)
  {
    /** Labels are unique and every row has exactly one cell per column. */
    ghost predicate Valid()
    {
      && Distinct(columns)
      && forall i, c {:trigger c in rows[i]} | 0 <= i < |rows| :: c in rows[i] <==> c in columns
    }
  }

  /** A cell; a label the row lacks reads as missing (`NaN`). */
  function Cell(row: map<string, Value>, c: string): Value
  {
    if c in row then row[c] else Null
  }

  /** `record.get(c)` with pandas' missing value as default. */
  function Get(record: Dict<string, Value>, c: string): Value
  {
    if c in ToMap(record) then ToMap(record)[c] else Null
  }

  /** All records one after the other, as one sequence of assignments. */
  function Flatten(records: seq<Dict<string, Value>>): Dict<string, Value>
  {
    if records == [] then [] else Flatten(records[..|records| - 1]) + records[|records| - 1]
  }

  lemma {:induction false} FlattenHolds(records: seq<Dict<string, Value>>)
    ensures forall c :: c in ToMap(Flatten(records)) <==> exists i | 0 <= i < |records| :: c in ToMap(records[i])
  {
    if records != [] {
      var p := records[..|records| - 1];
      FlattenHolds(p);
      ToMapAppend(Flatten(p), records[|records| - 1]);
      forall c | exists i | 0 <= i < |records| :: c in ToMap(records[i])
        ensures c in ToMap(Flatten(records))
      {
        var i :| 0 <= i < |records| && c in ToMap(records[i]);
        if i < |p| { assert c in ToMap(p[i]); }
      }
      forall c | c in ToMap(Flatten(p))
        ensures exists i | 0 <= i < |records| :: c in ToMap(records[i])
      {
        var i :| 0 <= i < |p| && c in ToMap(p[i]);
        assert c in ToMap(records[i]);
      }
    }
  }

  /** `pd.DataFrame(records)`: the columns are the keys of all records, and a
      record that lacks a column reads as missing. */
  function FromRecords(records: seq<Dict<string, Value>>): (t: Table)
    ensures t.Valid() && |t.rows| == |records|
    ensures forall c :: c in t.columns <==> exists i | 0 <= i < |records| :: c in ToMap(records[i])
    ensures forall i, c | 0 <= i < |records| :: Cell(t.rows[i], c) == Get(records[i], c)
  {
    var cols := Keys(Flatten(records));
    KeysAgree(Flatten(records));
    FlattenHolds(records);
    Table(cols, seq(|records|, i requires 0 <= i < |records| => map c | c in cols :: Get(records[i], c)))
  }

  /** The values of column `k`, one per row (`df[k]`). */
  function Column(t: Table, k: string): (col: seq<Value>)
    ensures |col| == |t.rows|
  {
    seq(|t.rows|, i requires 0 <= i < |t.rows| => Cell(t.rows[i], k))
  }

  /** `s` without the occurrences of `x`, order kept. */
  function Remove(s: seq<string>, x: string): (r: seq<string>)
    ensures forall c :: c in r <==> c in s && c != x
    ensures Distinct(s) ==> Distinct(r)
  {
    if s == [] then []
    else
      var r := Remove(s[..|s| - 1], x);
      assert forall c :: c in s <==> c in s[..|s| - 1] || c == s[|s| - 1];
      assert Distinct(s) ==> s[|s| - 1] !in s[..|s| - 1];
      if s[|s| - 1] == x then r else r + [s[|s| - 1]]
  }

  /** `df.drop([k], axis=1)`: column `k` goes, every other column stays with
      its values. */
  function Drop(t: Table, k: string): (r: Table)
    requires t.Valid()
    ensures r.Valid() && |r.rows| == |t.rows|
    ensures forall c :: c in r.columns <==> c in t.columns && c != k
    ensures forall i, c | 0 <= i < |t.rows| && c != k :: Cell(r.rows[i], c) == Cell(t.rows[i], c)
  {
    Table(Remove(t.columns, k), seq(|t.rows|, i requires 0 <= i < |t.rows| => t.rows[i] - {k}))
  }

  /** The labels of the right frame after suffixing the ones the left frame also has. */
  function Suffixed(names: seq<string>, taken: seq<string>, suffix: string): (r: seq<string>)
    ensures |r| == |names|
  {
    seq(|names|, j requires 0 <= j < |names| => if names[j] in taken then names[j] + suffix else names[j])
  }

  /** The map sending each name to the value at the same position. */
  function Zip(names: seq<string>, vals: seq<Value>): (m: map<string, Value>)
    requires |names| == |vals|
    ensures forall c :: c in m <==> c in names
    ensures Distinct(names) ==> forall j | 0 <= j < |names| :: m[names[j]] == vals[j]
  {
    if names == [] then map[]
    else
      var n := |names| - 1;
      var m := Zip(names[..n], vals[..n]);
      assert forall c :: c in names <==> c in names[..n] || c == names[n];
      assert forall j | 0 <= j < n :: names[..n][j] == names[j] && vals[..n][j] == vals[j];
      m[names[n] := vals[n]]
  }

  /** `left.merge(right, left_index=True, right_index=True, suffixes=('', suffix))`
      on two frames with the same default index. A right label the left frame
      also has gets `suffix`; left labels never change. The model leaves every
      case where the resulting labels are not unique (a suffixed label that
      collides again) unspecified and stops there with `DuplicateColumns`. */
  function MergeOnIndex(left: Table, right: Table, suffix: string): (r: Result<Table>)
    requires left.Valid() && right.Valid() && |left.rows| == |right.rows|
    ensures r.Ok? <==> Distinct(left.columns + Suffixed(right.columns, left.columns, suffix))
    ensures r.Err? ==> r.error == DuplicateColumns
    ensures r.Ok? ==> r.value.Valid() && |r.value.rows| == |left.rows|
    ensures r.Ok? ==> r.value.columns == left.columns + Suffixed(right.columns, left.columns, suffix)
    ensures r.Ok? ==> forall i, c {:trigger Cell(r.value.rows[i], c)} | 0 <= i < |left.rows| && c in left.columns ::
      Cell(r.value.rows[i], c) == Cell(left.rows[i], c)
    ensures r.Ok? ==> forall i, j {:trigger Cell(right.rows[i], right.columns[j])}
        {:trigger Cell(r.value.rows[i], Suffixed(right.columns, left.columns, suffix)[j])}
        | 0 <= i < |left.rows| && 0 <= j < |right.columns| ::
      Cell(r.value.rows[i], Suffixed(right.columns, left.columns, suffix)[j]) == Cell(right.rows[i], right.columns[j])
  {
    var renamed := Suffixed(right.columns, left.columns, suffix);
    var cols := left.columns + renamed;
    if !Distinct(cols) then Err(DuplicateColumns)
    else
      assert Distinct(renamed) by {
        forall a, b | 0 <= a < b < |renamed| ensures renamed[a] != renamed[b] {
          assert cols[|left.columns| + a] == renamed[a] && cols[|left.columns| + b] == renamed[b];
        }
      }
      assert forall c | c in left.columns :: c !in renamed by {
        forall c, j | 0 <= j < |renamed| && c in left.columns ensures c != renamed[j] {
          var a :| 0 <= a < |left.columns| && left.columns[a] == c;
          assert cols[a] == c && cols[|left.columns| + j] == renamed[j];
        }
      }
      var rows := seq(|left.rows|, i requires 0 <= i < |left.rows| =>
        left.rows[i] + Zip(renamed, seq(|right.columns|, j requires 0 <= j < |right.columns| => Cell(right.rows[i], right.columns[j]))));
      Ok(Table(cols, rows))
  }
}
