# Result normalisation for SoQL query results

This project models the layer that turns the decoded answer of a Socrata
(SoQL) query into a table. It comes in two versions.

The current version is `utilities/parsers.py`, modelled in module `Parsers`
(`parsers.dfy`):

- `parse_location` flattens one location value. A dict is copied, and its
  JSON-encoded `human_address` is decoded and merged over the copy. Any
  other value gives an empty dict.
- `parse_metadata` turns a dataset schema into four parallel lists: field
  name, column name, description and data type.
- `get_dtypes` maps each field name to its data type.
- `get_results_df` builds a frame from the result rows. It then visits the
  type dict in its iteration order. Each location-typed column that the
  frame has is parsed, dropped, and joined back by row position with the
  suffixes `('', '_k')`.

The older version is `parsers.py`, modelled in module `LegacyParsers`
(`legacy_parsers.dfy`):

- `parse_location` has a fixed six-key result.
- `get_dtypes` works over the parallel lists of `parse_metadata`.
- Its `parse_metadata` is the same loop as the current one, so it is
  modelled once.

How the model represents the program:

- **Dicts** (`dicts.dfy`). A Python dict is the sequence of the
  assignments that built it. A lookup sees the last assignment to a key
  (`ToMap`). Iteration sees each key once, where it was first assigned
  (`Keys`). So `d.update(e)` is `d + e`.
- **Values** (`values.dfy`). Decoded JSON values have one `Null` for both
  `None` and pandas' `NaN`. The module also holds the Python operations the
  parsers apply: `v['k']`, `for x in v`, hashability, and `json.loads`. The
  JSON decoder itself is a parameter (`Decoder`) that nothing is assumed
  about.
- **Exceptions.** Every exception the source lets escape is an `Err`
  result, so no precondition hides an error path. This covers a missing
  key, a non-string `human_address`, an undecodable string, a non-dict
  schema and an unhashable field name.
- **Frames** (`frames.dfy`). A pandas frame is an ordered list of distinct
  labels plus one row map per index position. The module holds the three
  pandas operations the flattener uses: `DataFrame(list_of_dicts)`,
  `drop` and a merge on the index.
- **Loops.** Each loop in the source is a `method` with a `while` loop,
  proved equal to a specification function. `Parsers.GetResultsDf`,
  `Parsers.ParseMetadata`, `Parsers.GetDtypes`, `LegacyParsers.ParseLocation`
  and `LegacyParsers.GetDtypes` are these methods. The properties are
  lemmas about those functions.
- **`parse_location`.** The current version is straight-line code on a
  local dict, so it is a function.

`scenarios.dfy` proves what the model gives on concrete rows:

- a row whose location carries an encoded address;
- a row whose location is null;
- the older `parse_location` on the same location.

Where the code and its documentation differ, the model follows the code:

- `parse_location` (utilities/parsers.py:38-41) keeps `human_address`
  itself among the output keys. Its docstring example (lines 26-31) leaves
  it out. So an expanded frame has a `human_address` column
  (`Scenarios.WellFormedRow`).
- A frame is built from the parsed locations, so its columns are the keys
  those locations have. When every location of a location column is null,
  the column expands to no column at all, not to null address columns
  (`Scenarios.NullRow`).
- The expanded column `k` is dropped before the join. It comes back if a
  parsed location has a key named `k` (`Parsers.ExpandLocationDrops`).
- A `description` is `None` when the key is missing, and also when the
  schema gives it as `null` (`Parsers.ParseMetadata`).

## Model

| member | source | states |
|---|---|---|
| Dicts.ToMapAppend | utilities/parsers.py:39-41 | after `d.update(e)` a key of `e` has `e`'s value and any other key keeps `d`'s |
| Dicts.KeysAppend | utilities/parsers.py:39-41 | after `d.update(e)` the keys of `d` keep their order and the keys new to `d` follow in `e`'s order |
| Dicts.LastWins | utilities/parsers.py:82 | a key holds the value of its last assignment |
| Values.Subscript | utilities/parsers.py:61-67 | no contract of its own: `v[key]` is the dict's value, `KeyError` when the dict lacks the key, `TypeError` on a non-dict; `Parsers.ParseMetadata` and `Parsers.DtypesKeys` state what the parsers make of it |
| Values.JsonLoads | utilities/parsers.py:41 | no contract of its own: `json.loads` accepts only a string and fails with a decoding error when the decoder does; `Parsers.ParseLocationCases` states both error outcomes |
| Values.Iterate | utilities/parsers.py:60 | no contract of its own: `for x in v` yields a list's items, a string's characters or a dict's keys, and is a `TypeError` on `None` and scalars; `Parsers.ParseMetadata` and `Parsers.GetDtypes` are proved against loops over it |
| Values.Traverse | utilities/parsers.py:60-67 | a loop whose body may raise: it succeeds exactly when every element succeeds, then holds each element's result in order; otherwise it fails with the error of the first failing element, all earlier ones having succeeded |
| Parsers.ParseLocationCases | utilities/parsers.py:36-43 | a non-dict gives the empty dict; a dict without `human_address` is returned unchanged; a `human_address` that is not a string gives `TypeError`, and one that does not decode gives a decoding error |
| Parsers.HumanAddressMerged | utilities/parsers.py:38-41 | with a decoded address dict, the result succeeds; the input keys keep their places, `human_address` included; the new address keys follow; address values override input values of the same key; other input values stay |
| Parsers.ParseLocation | utilities/parsers.py:36-43 | no contract of its own: `Parsers.ParseLocationCases` states the non-dict, no-address and error outcomes, and `Parsers.HumanAddressMerged` states the merge |
| Parsers.UpdateWith | utilities/parsers.py:41 | no contract of its own: `update` with a decoded dict appends its assignments, whose effect `Dicts.ToMapAppend` and `Dicts.KeysAppend` state; an empty list or string changes nothing; a non-empty string is a `ValueError`, `None` and scalars a `TypeError` |
| Scenarios.LocationParses | utilities/parsers.py:36-43 | a location with latitude, longitude and an encoded address parses to its three entries followed by the four address entries |
| Frames.FromRecords | utilities/parsers.py:97 | the frame is valid and has one row per record; a label is a column exactly when some record has that key; a cell is the record's value, or missing |
| Scenarios.OneRecord | utilities/parsers.py:97 | the frame of one record has the record's keys, in order, as columns and the record as its row |
| Frames.Drop | utilities/parsers.py:103 | the frame stays valid with the same rows; exactly the label `k` goes; every other cell is unchanged |
| Frames.MergeOnIndex | utilities/parsers.py:104-107 | it succeeds exactly when the suffixed labels are unique; the left labels come first, unchanged, then the right labels with `suffix` added to those the left frame has; left cells are kept; each right cell moves to its renamed label |
| Scenarios.MergeOneRow | utilities/parsers.py:104-107 | two one-row frames without a common label join into one row under both label lists |
| Parsers.ParseColumn | utilities/parsers.py:102 | no contract of its own: `results_df[k].apply(parse_location)` parses each cell in row order and the first failure escapes; `Parsers.ExpandLocationRows` states that parsed location `i` is `parse_location` of row `i`'s cell |
| Parsers.ExpandLocation | utilities/parsers.py:101-107 | one pass of the loop body for location column `k`: on success the frame is valid and keeps its row count; `Parsers.ExpandLocationKeeps`, `ExpandLocationAdds`, `ExpandLocationOnly` and `ExpandLocationDrops` state its columns |
| Parsers.ExpandLocationRows | utilities/parsers.py:102 | expanding a location column keeps the row count; parsed location `i` is `parse_location` of row `i`'s cell |
| Parsers.ExpandLocationKeeps | utilities/parsers.py:103-107 | every other column keeps its label and its values |
| Parsers.ExpandLocationAdds | utilities/parsers.py:102-107 | every key of a parsed location becomes a column; row `i` holds location `i`'s value for it, missing where that location lacks the key; the column is named `key_k` when another column already has the label `key` |
| Parsers.ExpandLocationOnly | utilities/parsers.py:102-107 | no other column appears: each output column is an old column other than `k` or the new label of a parsed key |
| Parsers.ExpandLocationDrops | utilities/parsers.py:102-107 | `k` is in the output exactly when some parsed location has a key named `k` |
| Parsers.IsLocationColumn | utilities/parsers.py:100-101 | no contract of its own: the test `v == 'location' and k in results_df.columns` for a key of the type dict; `Parsers.ExpandAllPassThrough` states that a key failing it is skipped |
| Parsers.ExpandAll | utilities/parsers.py:100-107 | a successful run of the loop gives a valid frame with the same number of rows |
| Parsers.ResultsTable | utilities/parsers.py:97-109 | no contract of its own: `get_results_df` as a function; `Parsers.GetResultsDf` is proved equal to it, and `Parsers.ResultsPassThrough` and `Parsers.ResultsKeepRows` state what it computes |
| Parsers.GetResultsDf | utilities/parsers.py:87-109 | the loop over the type dict computes `ResultsTable`, a valid frame with one row per raw result |
| Parsers.ExpandAllPassThrough | utilities/parsers.py:100-101 | keys that do not name a location-typed column of the frame are skipped without error |
| Parsers.ResultsPassThrough | utilities/parsers.py:97-109 | when no result column is location-typed, the output is the frame of the raw results |
| Parsers.ExpandAllKeepsColumns | utilities/parsers.py:100-107 | a column not typed `location` keeps its label and values through all expansions |
| Parsers.ResultsKeepRows | utilities/parsers.py:97-109 | the output has one row per raw result; each key of a raw result that is not location-typed is a column holding that result's value |
| Scenarios.WellFormedRow | utilities/parsers.py:97-109 | one row with an encoded address becomes `incident_id`, latitude, longitude, `human_address`, address, city, state, zip, with the decoded values |
| Scenarios.NullRow | utilities/parsers.py:97-109 | one row whose location is null becomes a frame with only `incident_id` |
| Parsers.Columns | utilities/parsers.py:60 | no contract of its own: `raw_metadata['columns']`, iterated; its errors are the first errors of `Parsers.ParseMetadata` and `Parsers.GetDtypes` |
| Parsers.ColumnEntry | utilities/parsers.py:61-67 | no contract of its own: one schema column read in the source's order; `Parsers.MetadataEntries` states the entries it gives |
| Parsers.MetadataOf | utilities/parsers.py:46-69 | no contract of its own: `parse_metadata` as a function; `Parsers.ParseMetadata` is proved equal to it and `Parsers.MetadataEntries` states its four lists |
| Parsers.ParseMetadata | utilities/parsers.py:46-69 | it computes `MetadataOf`; on success the four lists have one entry per schema column in order; `description` is `None` where the key is missing; the first column missing `fieldName`, `name` or `dataTypeName` gives that error |
| Parsers.MetadataEntries | utilities/parsers.py:60-67 | on success all four lists are as long as the column list, and entry `i` of each is column `i`'s `fieldName`, `name`, `dataTypeName` and description (or `None`) |
| Parsers.DtypeEntry | utilities/parsers.py:82 | no contract of its own: one assignment `dtypes[column['fieldName']] = column['dataTypeName']`, value first, then key, then the hash check; `Parsers.DtypeAt` states the pair it gives |
| Parsers.DtypesOf | utilities/parsers.py:80-84 | no contract of its own: `get_dtypes` as its sequence of assignments; `Parsers.GetDtypes` is proved equal to it, and `Parsers.DtypesKeys` and `Parsers.DtypesLastWins` state the dict it builds |
| Parsers.GetDtypes | utilities/parsers.py:72-84 | the loop computes the sequence of `field -> type` assignments, one per column, or the first column's error |
| Parsers.DtypeAt | utilities/parsers.py:81-82 | assignment `i` of the type dict is column `i`'s field name and data type, and there is one assignment per column |
| Parsers.DtypesKeys | utilities/parsers.py:80-84 | the type dict's keys are exactly the schema's field names; iteration visits each of them once |
| Parsers.DtypesLastWins | utilities/parsers.py:81-82 | a field name maps to the `dataTypeName` of the last column that has it |
| LegacyParsers.PresetKeys | parsers.py:22-29 | the preset dict iterates latitude, longitude, address, city, state, zip |
| Dicts.Reassign | parsers.py:42-44 | assigning a key the dict already holds keeps the iteration order and changes only that key's value |
| LegacyParsers.Field | parsers.py:37-44 | no contract of its own: one pass of the loop body, `json.loads(location[key])` with a `KeyError` read as `None`; `LegacyParsers.ParseLocation` states the result in its terms |
| LegacyParsers.ParseLocation | parsers.py:13-45 | the result has exactly the six keys in order; each is `None` when `location` lacks it and the decoded `location[key]` otherwise; the first other error escapes |
| Scenarios.LegacyIgnoresHumanAddress | parsers.py:36-44 | on a location with an encoded address, the older version reads address, city, state and zip as `None`; the current version gives the decoded values |
| LegacyParsers.GetDtypes | parsers.py:74-81 | the indexed loop computes one `field_name[i] -> data_type[i]` assignment per index; a shorter `data_type` list gives `IndexError` |
| LegacyParsers.Entry | parsers.py:77-79 | no contract of its own: `data_type[i]` is read before `field_name[i]`, a shorter list gives `IndexError` and an unhashable name `TypeError`; `LegacyParsers.DtypesLastWins` and `LegacyParsers.DtypesAgree` state what the loop builds from it |
| LegacyParsers.DtypesOf | parsers.py:74-81 | no contract of its own: the older `get_dtypes` as its sequence of assignments; `LegacyParsers.GetDtypes` is proved equal to it, and `LegacyParsers.DtypesLastWins` and `LegacyParsers.DtypesAgree` state the dict it builds |
| LegacyParsers.DtypesLastWins | parsers.py:76-79 | `field_name[i]` maps to `data_type[i]` unless a later index repeats the name |
| LegacyParsers.DtypesAgree | parsers.py:74-81 | on the lists `parse_metadata(m)` returns, the older `get_dtypes` builds the same dict as the current `get_dtypes(m)`: same keys, order and values |

## Left out

- The command-line programs, the Socrata client calls, token loading, logging, printing, CSV writing and the sqlite layer. They are I/O and are not part of this model.
- `get_endpoint` and `parse_from_statement`: their behaviour is Python `re` matching, which is not part of this model.
- `run_query.get_metadata`: a network call around the same loop as `parse_metadata`.
- The older `get_results_df` (parsers.py:84-97): it merges with `how='left'` and no join key, which is pandas behaviour the model does not reproduce.
- JSON decoding: `json.loads` is a parameter; only its success or failure on a string is modelled.
- Numbers and booleans are opaque scalars (`Other`). Python's `1 == True` equality between them is not modelled.
- The raw query results are taken to be dicts with string keys, as the query client returns them.
- Frames.MergeOnIndex: every case where the joined labels are not unique (a suffixed label that collides again) is left unspecified; the model stops there with `DuplicateColumns` and promises nothing about what pandas returns.
- Parsers.UpdateWith: a non-empty JSON list as the decoded `human_address` would be read by `dict.update` as key/value pairs; the model returns `Unsupported` there.
- LegacyParsers.GetDtypes: its input is the `parse_metadata` result as a record, so a missing `field_name` or `data_type` entry of the dict is not an error path.
- Pandas row order, the index and dtypes beyond the default integer index are not modelled; every frame has the index `0 .. n-1`.
- Parsers.ParseLocation: the in-place `update` on a local dict is written as a function, since it has no loop and no caller sees the dict before it is returned.

## Findings

| source | as written | input that shows it | evidently intended | confidence | as-written member | corrected member |
|---|---|---|---|---|---|---|
| parsers.py:36-44 | the loop visits only the six preset keys, so the `human_address` branch never runs; address, city, state and zip are read as top-level keys of the location | `{latitude: "32.8", longitude: "-96.7", human_address: "{\"address\": \"1 MAIN ST\", ...}"}` gives `address: None` | address, city, state and zip taken from the decoded `human_address`, as utilities/parsers.py:40-41 does | high, not executed | Scenarios.LegacyIgnoresHumanAddress | Parsers.HumanAddressMerged |
