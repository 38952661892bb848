# Pin-pile as-installed daily work: a Dafny model of the bookkeeping

The daily-work script turns pile-survey tables into map layers and a report.
A spreadsheet `pile_location_as_install_<date>.xlsx` yields two GeoJSON files:
the points, and 1.75 m buffers around them. It also gains a `processed` sheet.
A CSV table `pinpile_center_<date>.csv` yields a point GeoJSON file and a new workbook.

The libraries do the numeric work: pandas parses the coordinate text (`astype(float)`, lines 25 and 99),
geopandas with pyproj reprojects EPSG:3826 to EPSG:4326, and shapely computes the buffers.
The script's own `convert_to_ddmmss` (lines 9-13) formats degrees-minutes-seconds with float arithmetic.
This model covers the deterministic bookkeeping around those steps:

- `Paths` (`paths.dfy`): the POSIX `os.path` helpers the script uses, and the date token.
  The token is the part of the file stem after its last `_`.
  The module also builds the output names: a fixed prefix, the token, a fixed extension.
- `Frames` (`frames.dfy`): data frames as labelled columns over rows.
  It has `frame[name] = values`, `frame[names]`, `drop`, `concat(axis=1)`,
  and the id assignment `fid = 1..N` followed by the fid-first reorder.
- `Geometry` (`geometry.dfy`): geometries as tagged values. Their coordinates are carried but never computed with.
  The buffer lambda wraps a bare `Polygon` into a one-part `MultiPolygon`.
- `Pipeline` (`pipeline.dfy`): the point layer, the buffer layer and the processed report table.
  It also gives the files and titles each pipeline writes.
- `GeoJson` (`geojson.dfy`): the decoded feature collection as a class.
  Its `Stringify` method sets `name`, then walks every feature and every property key in place.
- `Report` (`report.dfy`): the worksheet's column widths, set by a loop over the report's columns.
- `Router` (`router.dfy`): `main`. It selects inputs by name, runs the spreadsheet pipeline before the CSV one,
  and stops at the first pipeline that raises.
- `Values` (`values.dfy`): cell values, their Python `str()` text, and the `Result` of operations that can raise.

Points of the code's behaviour that the model keeps:

- `ins_date` is required on the CSV path: line 127 drops it unconditionally.
  A CSV table without that column fails with a missing-column error.
- The report's cells are neither reformatted nor stringified before writing.
  `astype(str)` appears only inside the width computation (lines 84 and 136), and only that is modelled.
- One `try` encloses both pipelines (lines 144-159).
  A failure in the spreadsheet pipeline therefore also skips the CSV pipeline (`Router.Started`).
- For a report without rows, pandas' maximum over an empty column is NaN, and Python's `max(nan, n)` keeps the NaN.
  The width is then NaN, not the header length plus two (`Report.Width.NaN`).
- The spreadsheet run writes its report into its own input workbook (line 78).
  That workbook keeps its name, so a later run selects it again (line 147).
  Only the files a run creates are never selected (`Router.OutputsAreNotInputs`).

Which columns `df` carries at line 76 depends on the geopandas version.
When the geo-frame constructor at line 25 shares the read frame's storage, `df` also gains `geometry` and `fid`.
When the constructor copies, `df` does not gain them, and `df.drop(columns=['geometry'])` raises.
The report is therefore modelled over the frame as it stands at that line (`Pipeline.ProcessedTable`).
Both cases are proved: `Pipeline.SharedFrameReport` and `Pipeline.CopiedFrameReport`.

## Model

| member | source | states |
|---|---|---|
| `Paths.DateToken` | pinpile_as-installed_daily_work.py:23 | the token has no `_` and only characters of the stem; it is the whole stem when the stem has no `_`; otherwise the stem is some head, then `_`, then the token |
| `Paths.DateTokenOf` | pinpile_as-installed_daily_work.py:21-23 | the token of a path (basename, extension split off, last `_` segment) contains neither `_` nor `/` |
| `Paths.SplitExt` | pinpile_as-installed_daily_work.py:22 | `os.path.splitext`: the two parts concatenate to the name, and the extension is empty or one dot followed by neither a dot nor a `/` |
| `Paths.SplitExtFacts` | pinpile_as-installed_daily_work.py:22 | there is no extension exactly when every dot of the last path component has only dots before it in that component; otherwise the extension runs from the last dot to the end |
| `Paths.Stem` | pinpile_as-installed_daily_work.py:21-22 | the stem followed by the extension is the file name, and the stem holds no `/` |
| `Paths.SplitAt` | pinpile_as-installed_daily_work.py:22 | the cut is at the given dot: the first part is everything before it, the second starts with it and holds no further dot and no `/` |
| `Paths.DotsBeforeLastDot` | pinpile_as-installed_daily_work.py:22 | when only dots precede a component's last dot, only dots precede each of its dots |
| `Paths.Basename` | pinpile_as-installed_daily_work.py:21 | `os.path.basename`: the suffix of the path after its last `/`, the whole path when there is none |
| `Paths.LastIndexOf` | pinpile_as-installed_daily_work.py:23 | the index found holds the character, no later position does, and -1 means the character is absent |
| `Paths.StripTrailingSlashes` | pinpile_as-installed_daily_work.py:20 | the stripped text is a prefix with no trailing `/`, and only slashes were removed |
| `Paths.Dirname` | pinpile_as-installed_daily_work.py:20 | `os.path.dirname`: the text up to the last `/`, with trailing slashes stripped unless it is all slashes; its shape is stated by `Paths.DirnameShape` |
| `Paths.DirnameShape` | pinpile_as-installed_daily_work.py:20 | `os.path.dirname` returns an empty text, a run of slashes, or a text ending in a non-slash |
| `Paths.Join` | pinpile_as-installed_daily_work.py:36 | `os.path.join` of two parts; `Paths.BasenameOfJoin` and `Paths.DirnameOfJoin` state what it gives back |
| `Paths.BasenameOfJoin` | pinpile_as-installed_daily_work.py:36 | a name without `/` joined onto any directory keeps its name as basename |
| `Paths.DirnameOfJoin` | pinpile_as-installed_daily_work.py:36 | a name joined onto a directory of dirname shape has that directory as dirname |
| `Paths.OutputBesideInput` | pinpile_as-installed_daily_work.py:20 | a file joined onto the input's directory lies in that directory and keeps its name |
| `Paths.OutputNameRoundTrip` | pinpile_as-installed_daily_work.py:59 | an output name (`Paths.OutputName`: prefix, token, extension) is its own basename, its stem is prefix + token, and reading the date token back gives the token it was made from |
| `Paths.StemOfOutputName` | pinpile_as-installed_daily_work.py:110 | the stem of an output name is the prefix followed by the token |
| `Paths.OutputShapesTokenFriendly` | pinpile_as-installed_daily_work.py:129 | the three prefixes and the `.geojson`/`.xlsx` extensions let the token be read back |
| `Paths.OutputNamesRoundTrip` | pinpile_as-installed_daily_work.py:36 | each of the four output names gives back its token |
| `Frames.IndexOf` | pinpile_as-installed_daily_work.py:85 | `get_loc`: the first position holding the label |
| `Frames.SetColumn` | pinpile_as-installed_daily_work.py:26 | `frame[name] = values` overwrites an existing column in place or appends a new one; row count and every other column unchanged |
| `Frames.Overwrite` | pinpile_as-installed_daily_work.py:33 | assigning an existing label replaces that column's cells in place and keeps the labels, the rows and every other column |
| `Frames.Append` | pinpile_as-installed_daily_work.py:26 | assigning a new label adds it as the rightmost column with the given cells and keeps every earlier column |
| `Frames.SetColumnAttrs` | pinpile_as-installed_daily_work.py:26 | assigning plain values, or assigning the geometry column itself, leaves no geometry outside the geometry column |
| `Frames.Select` | pinpile_as-installed_daily_work.py:27 | `frame[names]` has exactly those labels in that order, each with its old cells, and the same rows |
| `Frames.Without` | pinpile_as-installed_daily_work.py:27 | the comprehension keeps exactly the labels other than the excluded one |
| `Frames.WithoutCounts` | pinpile_as-installed_daily_work.py:27 | the comprehension keeps every other label exactly as often as it occurred |
| `Frames.WithoutDistinct` | pinpile_as-installed_daily_work.py:27 | filtering a list without repeats gives one without repeats |
| `Frames.WithoutAppend` | pinpile_as-installed_daily_work.py:27 | filtering distributes over concatenation |
| `Frames.AssignFid` | pinpile_as-installed_daily_work.py:26 | `gdf['fid'] = range(1, len(gdf) + 1)`; stated by `Frames.IdentifyFacts` |
| `Frames.FidFirst` | pinpile_as-installed_daily_work.py:27 | the fid-first column selection; stated by `Frames.IdentifyFacts` |
| `Frames.Identify` | pinpile_as-installed_daily_work.py:26-27 | lines 26 and 27 one after the other; stated by `Frames.IdentifyFacts` |
| `Frames.IdentifyFacts` | pinpile_as-installed_daily_work.py:26-27 | after id assignment and reorder: same row count; row i has `fid == i + 1`; `fid` is first and occurs once; the other labels keep their order and multiplicity; every other column keeps its cells |
| `Frames.IdentifyColumns` | pinpile_as-installed_daily_work.py:27 | after the reorder the labels are `fid` followed by the other labels in order, each with its old count and `fid` once |
| `Frames.IdentifyIds` | pinpile_as-installed_daily_work.py:26-27 | the ids written by `Frames.AssignFid` (`Frames.FidValues`, `range(1, N + 1)`) end up in the first column as 1..N in record order |
| `Frames.MovedFirstCounts` | pinpile_as-installed_daily_work.py:27 | putting a label first and filtering it from the rest leaves it exactly once and keeps every other label's count |
| `Frames.Drop` | pinpile_as-installed_daily_work.py:76 | `drop` fails exactly when a dropped label is absent, naming one such label; otherwise the labels are the remaining ones in their order, each with its cells, and the rows are kept |
| `Frames.Missing` | pinpile_as-installed_daily_work.py:127 | the dropped labels that are absent from the frame |
| `Frames.Remove` | pinpile_as-installed_daily_work.py:127 | the labels left after the drop: exactly those not dropped, without repeats |
| `Frames.ConcatColumnsFacts` | pinpile_as-installed_daily_work.py:76 | `concat(axis=1)` of frames with the same rows and no shared label is a frame in which every label of either side carries that side's cells |
| `Geometry.NormalizeBuffer` | pinpile_as-installed_daily_work.py:51 | `Polygon p` becomes `MultiPolygon([p])`; any other geometry passes through; the result is never a bare `Polygon` and covers the same polygons |
| `Geometry.NormalizeIdempotent` | pinpile_as-installed_daily_work.py:51 | normalising twice is normalising once |
| `Geometry.NormalizeAll` | pinpile_as-installed_daily_work.py:51 | the column-wide `apply` keeps the count; no result is a bare `Polygon`; each covers the polygons of its input; a `Polygon p` becomes `MultiPolygon([p])` and anything else is kept |
| `Pipeline.GeoFrame` | pinpile_as-installed_daily_work.py:25 | building the geo-frame fails exactly when `Easting` or `Northing` is missing |
| `Pipeline.PointLayer` | pinpile_as-installed_daily_work.py:25-34 | the point layer fails exactly when `Easting` or `Northing` is missing |
| `Pipeline.SetColumnKeepsIds` | pinpile_as-installed_daily_work.py:33-34 | setting `lon` or `lat` keeps `fid` first with ids 1..N |
| `Pipeline.PointLayerFacts` | pinpile_as-installed_daily_work.py:25-34 | the point layer has the input's row count and order, ids 1..N first, the points, `lon` and `lat`, and every other input column with its values; its labels are exactly the input's plus `fid`, `geometry`, `lon`, `lat` |
| `Pipeline.LayerFacts` | pinpile_as-installed_daily_work.py:33-34 | after the reorder, setting `lon` and `lat` keeps ids, geometry and the other columns, and adds no label beyond those two |
| `Pipeline.LayerIds` | pinpile_as-installed_daily_work.py:33-34 | the ids stay first through the `lon`/`lat` assignment |
| `Pipeline.LayerGeometry` | pinpile_as-installed_daily_work.py:33-34 | the layer carries the points, `lon` and `lat` as given |
| `Pipeline.LayerKeeps` | pinpile_as-installed_daily_work.py:33-34 | every other input column reaches the layer with its values |
| `Pipeline.LayerKeepsColumn` | pinpile_as-installed_daily_work.py:33-34 | one read column other than `fid`, `geometry`, `lon` and `lat` reaches the layer with its values |
| `Pipeline.LayerLabels` | pinpile_as-installed_daily_work.py:25-34 | the layer's labels are exactly the read table's plus `fid`, `geometry`, `lon`, `lat` |
| `Pipeline.LiftColumn` | pinpile_as-installed_daily_work.py:25 | a read column enters the geo-frame (`Pipeline.Lift`) with the same values under the same label |
| `Pipeline.BufferLayerFacts` | pinpile_as-installed_daily_work.py:50-57 | the buffer layer keeps row count and order; its labels are exactly the point layer's with `buffer` added and `geometry` removed; its `buffer` column holds the normalised buffers, none a bare `Polygon`; every other column is kept |
| `Pipeline.BufferLayer` | pinpile_as-installed_daily_work.py:50-57 | the buffer column set, then `geometry` dropped; stated by `Pipeline.BufferLayerFacts` |
| `Pipeline.GeoColumns` | pinpile_as-installed_daily_work.py:76 | the four appended columns are `lon`, `lat`, `Lontitude`, `Latitude`, one row per record |
| `Pipeline.LowerColumn` | pinpile_as-installed_daily_work.py:76 | a geometry-free frame read as plain values (`Pipeline.Lower`) keeps every labelled column's values |
| `Pipeline.ProcessedTableFacts` | pinpile_as-installed_daily_work.py:127 | the report fails exactly when a dropped label is missing; otherwise it has the input's row count and the frame's other columns in order, each with its cells, followed by `lon`, `lat`, `Lontitude`, `Latitude` with each record's four values; it is a frame without repeated labels when the frame has none of those four |
| `Pipeline.ProcessedTableShape` | pinpile_as-installed_daily_work.py:76 | a built report has one row per record, the kept labels followed by the geographic ones, each row ending with the record's geographic values, and is a frame when no label is on both sides |
| `Pipeline.ProcessedTableCells` | pinpile_as-installed_daily_work.py:76 | each kept column of the report carries the frame's cells, row by row |
| `Pipeline.ProcessedTable` | pinpile_as-installed_daily_work.py:76 | the drop followed by the concatenation; stated by `Pipeline.ProcessedTableFacts` |
| `Pipeline.SharedFrame` | pinpile_as-installed_daily_work.py:25-26 | with shared storage, the frame at line 76 has `geometry`, and only that column holds geometries |
| `Pipeline.GeoFrameShapes` | pinpile_as-installed_daily_work.py:25 | in the geo-frame only `geometry` holds geometries |
| `Pipeline.SharedFrameReport` | pinpile_as-installed_daily_work.py:76 | with shared storage the spreadsheet report always succeeds, and the CSV report succeeds exactly when `ins_date` is present |
| `Pipeline.CopiedFrameReport` | pinpile_as-installed_daily_work.py:127 | with a copied frame and no `geometry` in the input, the report fails on `geometry` |
| `Pipeline.OutputPathFacts` | pinpile_as-installed_daily_work.py:59 | an output file lies in the input's directory, is named prefix + token + extension, and gives back the input's token |
| `Pipeline.OutputPath` | pinpile_as-installed_daily_work.py:36 | `os.path.join(file_directory, prefix + date_str + ext)`; stated by `Pipeline.OutputPathFacts` |
| `Pipeline.ExcelOutputs` | pinpile_as-installed_daily_work.py:36-64 | both GeoJSON files lie beside the input and are named after its token; the point file is titled with the input's name, the buffer file with its own; the report goes to the input workbook, sheet `processed` |
| `Pipeline.CsvOutputs` | pinpile_as-installed_daily_work.py:110-133 | the GeoJSON file and the new workbook lie beside the input and are named after its token; the GeoJSON file is titled with the input's name; the sheet is `Sheet1` |
| `Pipeline.DateTokenOfJoin` | pinpile_as-installed_daily_work.py:110 | the token of a joined path depends only on the file name |
| `GeoJson.StringifyAll` | pinpile_as-installed_daily_work.py:42-45 | the pass keeps the feature count |
| `GeoJson.StringifyAllFacts` | pinpile_as-installed_daily_work.py:42-45 | after the pass (`GeoJson.Stringified` per value) each feature keeps its geometry and its key set; `fid`, `lon`, `lat` keep their values; every other property is `str` of its old value |
| `GeoJson.StringifyAllTypes` | pinpile_as-installed_daily_work.py:115-119 | after the pass every property outside `fid`, `lon`, `lat` is a string |
| `GeoJson.StringifyIdempotent` | pinpile_as-installed_daily_work.py:64-68 | applying the pass to its own output changes nothing |
| `GeoJson.StringifyFixedPoint` | pinpile_as-installed_daily_work.py:64-68 | a collection whose other properties are already strings is left unchanged |
| `GeoJson.FeatureCollection.constructor` | pinpile_as-installed_daily_work.py:39-40 | the decoded document holds the given name and features |
| `GeoJson.FeatureCollection.Stringify` | pinpile_as-installed_daily_work.py:41-45 | the in-place pass sets `name` to the title and replaces the features by the stringified ones, in order |
| `Report.LongestTextFacts` | pinpile_as-installed_daily_work.py:84 | the longest cell text (`Report.LongestText`) is at least every cell's length and equals one of them |
| `Report.ColumnWidth` | pinpile_as-installed_daily_work.py:84-87 | the width rule of one column; stated by `Report.ColumnWidthFacts` |
| `Report.ColumnWidthFacts` | pinpile_as-installed_daily_work.py:84-87 | the width is NaN exactly when there are no rows; otherwise it is at least header length + 2 and every cell length + 2, and equals one of those |
| `Report.Worksheet.constructor` | pinpile_as-installed_daily_work.py:81 | a fresh sheet has no widths set |
| `Report.Worksheet.AutoSize` | pinpile_as-installed_daily_work.py:135-139 | every report column k gets `ColumnWidth` at column number k+1; other widths stay |
| `Router.Filter` | pinpile_as-installed_daily_work.py:147-148 | the comprehension keeps exactly the listed names the test accepts |
| `Router.FilterFirst` | pinpile_as-installed_daily_work.py:151 | the first kept name is the first listed name the test accepts |
| `Router.IsExcelInput` | pinpile_as-installed_daily_work.py:147 | starts with `pile_location_as_install_` and ends with `.xlsx` |
| `Router.IsCsvInput` | pinpile_as-installed_daily_work.py:148 | starts with `pinpile_center_` and ends with `.csv` |
| `Router.Dispatch` | pinpile_as-installed_daily_work.py:147-156 | the runs `main` starts, none on an empty listing; stated by `Router.DispatchFacts` |
| `Router.DispatchFacts` | pinpile_as-installed_daily_work.py:147-156 | one spreadsheet run exactly when a spreadsheet input is listed and one CSV run exactly when a CSV input is listed, and no other run; the spreadsheet run comes first on the first listed spreadsheet input, the CSV run last on the first listed CSV input |
| `Router.GeoJsonIsNotInput` | pinpile_as-installed_daily_work.py:147-148 | a `.geojson` name ends in neither input extension |
| `Router.CsvPrefixIsNotExcelPrefix` | pinpile_as-installed_daily_work.py:147-148 | a name with the CSV prefix lacks the spreadsheet prefix |
| `Router.XlsxIsNotCsv` | pinpile_as-installed_daily_work.py:148 | a `.xlsx` name does not end in `.csv` |
| `Router.OutputsAreNotInputs` | pinpile_as-installed_daily_work.py:147-148 | none of the four files the runs create is selected as an input (the report written into the input workbook is not a created file) |
| `Router.Started` | pinpile_as-installed_daily_work.py:144-159 | runs start in order; every run before the last one started succeeded; if a later run never started, the last started run raised |
| `Values.ToStr` | pinpile_as-installed_daily_work.py:45 | `str` of a string is that string; `str` of an int starts with `-` exactly when the int is negative |
| `Values.NatToText` | pinpile_as-installed_daily_work.py:45 | `str` of a natural number is a non-empty run of digits without a leading zero |
| `Values.NatToTextRoundTrip` | pinpile_as-installed_daily_work.py:45 | the digits of a natural number read back as that number |
| `Values.IntToText` | pinpile_as-installed_daily_work.py:45 | `str` of an int; stated by `Values.IntToTextRoundTrip` and `Values.ToStr` |
| `Values.IntToTextRoundTrip` | pinpile_as-installed_daily_work.py:84 | `str` of an int has the shape of an integer literal and reads back as that int |

## Left out

- `convert_to_ddmmss` (lines 9-13) is left out because its output depends on float truncation, `round(..., 3)` and format widths.
  The `Lontitude`/`Latitude` strings are inputs of `Pipeline.GeoColumns`.
- The reprojection `to_crs` (lines 29, 103) is a foreign call on floats. `lon` and `lat` are per-record inputs.
  Only row count and order are kept.
- Parsing `Easting`/`Northing` with `astype(float)` (line 25) is left out, including its error on non-numeric text.
  The survey points are inputs. Only the missing-column errors are modelled.
- `buffer(1.75, resolution=100, cap_style=1)` (line 50) is a geometry-library call. The raw buffers are inputs.
  Only the normalisation lambda on line 51 is modelled.
- File I/O is left out: `read_excel`, `read_csv`, `to_file`, the JSON re-read and `json.dump`, and `ExcelWriter`.
  The feature collection enters `GeoJson.FeatureCollection` in the state `json.load` returns.
  The value typing GDAL applies on write (dates to text, NaN to null) is not modelled.
- Only the widths of the worksheet are modelled. Cell writing and openpyxl column letters are not.
  Widths are keyed by 1-based column number, which the letter names one-to-one.
- `os.getcwd` and `os.listdir` are left out. The directory and its entries, in listing order, are parameters of `Router.Dispatch`.
- `print` messages and the text of the caught exception are left out. `Router.Started` models only which runs start.
- Paths follow POSIX `os.path`. Windows drive letters and backslash separators are not modelled.
- GeoJSON properties are a map, so the key order `json.dump` writes is not modelled. The pass does not change it.
- Floats and timestamps carry their text as given: in a report cell the text `astype(str)` gives the column, in a GeoJSON property the text the file holds.
  Float and date formatting are not modelled.
- Column labels are text. `read_excel` keeps a numeric header cell as a number, and `len(column)` (lines 84 and 136) then raises; that case is not modelled.
- Frames have distinct column labels, because the readers rename repeated headers.
  A report with repeated labels makes the width loop raise in the source. `Report.Worksheet.AutoSize` requires distinct labels and does not model that error.
