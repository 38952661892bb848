/** The table bookkeeping of `process_excel_file` and `process_csv_file`:
    the point layer (geometry, ids, fid-first order, lon/lat), the buffer
    layer, the processed report table, and the names of every file and title
    a run produces. Coordinates, reprojection and buffering are inputs. */
module Pipeline {
  import opened Values
  import opened Geometry
  import opened Frames
  import opened Paths

  /** A read table as the attribute part of a geo-frame. */
  function Lift(df: Table<Value>): (r: Table<Cell>)
    requires Valid(df)
    ensures Valid(r) && r.columns == df.columns && |r.rows| == |df.rows|
    ensures forall i, k | 0 <= i < |r.rows| && 0 <= k < |r.columns| :: r.rows[i][k] == Attr(df.rows[i][k])
  {
    Table(df.columns, seq(|df.rows|, i requires 0 <= i < |df.rows| =>
      seq(|df.rows[i]|, k requires 0 <= k < |df.rows[i]| => Attr(df.rows[i][k]))))
  }

  function Attrs(vs: seq<Value>): (cs: seq<Cell>)
    ensures |cs| == |vs| && forall i | 0 <= i < |vs| :: cs[i] == Attr(vs[i])
  {
    seq(|vs|, i requires 0 <= i < |vs| => Attr(vs[i]))
  }

  function Shapes(gs: seq<Geometry>): (cs: seq<Cell>)
    ensures |cs| == |gs| && forall i | 0 <= i < |gs| :: cs[i] == Shape(gs[i])
  {
    seq(|gs|, i requires 0 <= i < |gs| => Shape(gs[i]))
  }

  const GeometryColumn := "geometry"
  const BufferColumn := "buffer"

  /** Lines 25-26: the geo-frame over the read table with its point geometry
      and ids, before the reorder. Selecting `Easting` or `Northing` raises a
      KeyError when the column is missing. */
  function GeoFrame(df: Table<Value>, points: seq<Geometry>): (r: Result<Table<Cell>>)
    requires Valid(df) && |points| == |df.rows|
    ensures r.Err? <==> "Easting" !in df.columns || "Northing" !in df.columns
  {
    if "Easting" !in df.columns then Err(MissingColumn("Easting"))
    else if "Northing" !in df.columns then Err(MissingColumn("Northing"))
    else Ok(AssignFid(SetColumn(Lift(df), GeometryColumn, Shapes(points))))
  }

  /** Lines 25-34: the point layer written to the first GeoJSON file.
      `points` are the parsed survey points, `lon` and `lat` the reprojected
      coordinates, one per record. */
  function PointLayer(df: Table<Value>, points: seq<Geometry>, lon: seq<Value>, lat: seq<Value>)
    : (r: Result<Table<Cell>>)
    requires Valid(df) && |points| == |lon| == |lat| == |df.rows|
    ensures r.Err? <==> "Easting" !in df.columns || "Northing" !in df.columns
  {
    var gdf :- GeoFrame(df, points);
    var ordered := FidFirst(gdf);
    Ok(SetColumn(SetColumn(ordered, "lon", Attrs(lon)), "lat", Attrs(lat)))
  }

  /** `fid` is the first column and holds 1..N in record order. */
  predicate IdsFirst(t: Table<Cell>)
    requires Valid(t)
  {
    |t.columns| > 0 && t.columns[0] == FidColumn
    && forall i | 0 <= i < |t.rows| :: t.rows[i][0] == Attr(Int(i + 1))
  }

  /** Setting any column other than `fid` keeps the ids first. */
  lemma SetColumnKeepsIds(t: Table<Cell>, name: string, values: seq<Cell>)
    requires Valid(t) && |values| == |t.rows| && IdsFirst(t) && name != FidColumn
    ensures IdsFirst(SetColumn(t, name, values))
  {
    var r := SetColumn(t, name, values);
    IndexOfDistinct(t.columns, 0);
    IndexOfDistinct(r.columns, 0);
    assert ColumnNamed(r, FidColumn) == ColumnNamed(t, FidColumn);
    forall i | 0 <= i < |r.rows|
      ensures r.rows[i][0] == Attr(Int(i + 1))
    {
      assert Column(t, 0)[i] == t.rows[i][0];
      assert Column(r, 0)[i] == r.rows[i][0];
    }
  }

  /** The point layer keeps the records and their order: ids 1..N first,
      the points in `geometry`, the coordinates in `lon` and `lat`, and every
      other column of the read table with its values. */
  lemma PointLayerFacts(df: Table<Value>, points: seq<Geometry>, lon: seq<Value>, lat: seq<Value>)
    requires Valid(df) && |points| == |lon| == |lat| == |df.rows|
    requires "Easting" in df.columns && "Northing" in df.columns
    ensures PointLayer(df, points, lon, lat).Ok?
    ensures var r := PointLayer(df, points, lon, lat).value;
      && Valid(r) && |r.rows| == |df.rows|
      && IdsFirst(r)
      && (forall c :: c in r.columns <==> c in df.columns || c in {FidColumn, GeometryColumn, "lon", "lat"})
      && GeometryColumn in r.columns && ColumnNamed(r, GeometryColumn) == Shapes(points)
      && "lon" in r.columns && ColumnNamed(r, "lon") == Attrs(lon)
      && "lat" in r.columns && ColumnNamed(r, "lat") == Attrs(lat)
      && (forall c | c in df.columns && c !in {FidColumn, GeometryColumn, "lon", "lat"} ::
            c in r.columns && ColumnNamed(r, c) == Attrs(ColumnNamed(df, c)))
  {
    PointLayerIs(df, points, lon, lat);
    var g := SetColumn(Lift(df), GeometryColumn, Shapes(points));
    IdentifyFacts(g);
    LayerFacts(df, g, Identify(g), points, lon, lat);
  }

  /** What the steps after the reorder keep, over the frames they act on. */
  predicate ReorderedFrom(df: Table<Value>, g: Table<Cell>, ids: Table<Cell>, points: seq<Geometry>)
  {
    && Valid(df) && |points| == |df.rows|
    && g == SetColumn(Lift(df), GeometryColumn, Shapes(points))
    && Valid(ids) && |ids.rows| == |df.rows|
    && ids.columns == [FidColumn] + Without(g.columns, FidColumn)
    && (forall i | 0 <= i < |ids.rows| :: ids.rows[i][0] == Attr(Int(i + 1)))
    && (forall c | c in g.columns && c != FidColumn :: ColumnNamed(ids, c) == ColumnNamed(g, c))
  }

  lemma LayerFacts(df: Table<Value>, g: Table<Cell>, ids: Table<Cell>, points: seq<Geometry>, lon: seq<Value>, lat: seq<Value>)
    requires ReorderedFrom(df, g, ids, points) && |lon| == |lat| == |df.rows|
    ensures var r := SetColumn(SetColumn(ids, "lon", Attrs(lon)), "lat", Attrs(lat));
      && Valid(r) && |r.rows| == |df.rows|
      && IdsFirst(r)
      && (forall c :: c in r.columns <==> c in df.columns || c in {FidColumn, GeometryColumn, "lon", "lat"})
      && GeometryColumn in r.columns && ColumnNamed(r, GeometryColumn) == Shapes(points)
      && "lon" in r.columns && ColumnNamed(r, "lon") == Attrs(lon)
      && "lat" in r.columns && ColumnNamed(r, "lat") == Attrs(lat)
      && (forall c | c in df.columns && c !in {FidColumn, GeometryColumn, "lon", "lat"} ::
            c in r.columns && ColumnNamed(r, c) == Attrs(ColumnNamed(df, c)))
  {
    LayerIds(df, g, ids, points, lon, lat);
    LayerLabels(df, g, ids, points, lon, lat);
    LayerGeometry(df, g, ids, points, lon, lat);
    LayerKeeps(df, g, ids, points, lon, lat);
  }

  lemma LayerIds(df: Table<Value>, g: Table<Cell>, ids: Table<Cell>, points: seq<Geometry>, lon: seq<Value>, lat: seq<Value>)
    requires ReorderedFrom(df, g, ids, points) && |lon| == |lat| == |df.rows|
    ensures IdsFirst(SetColumn(SetColumn(ids, "lon", Attrs(lon)), "lat", Attrs(lat)))
  {
    var withLon := SetColumn(ids, "lon", Attrs(lon));
    SetColumnKeepsIds(ids, "lon", Attrs(lon));
    SetColumnKeepsIds(withLon, "lat", Attrs(lat));
  }

  /** The layer's labels are the read table's plus `fid`, `geometry`, `lon`, `lat`. */
  lemma LayerLabels(df: Table<Value>, g: Table<Cell>, ids: Table<Cell>, points: seq<Geometry>, lon: seq<Value>, lat: seq<Value>)
    requires ReorderedFrom(df, g, ids, points) && |lon| == |lat| == |df.rows|
    ensures var r := SetColumn(SetColumn(ids, "lon", Attrs(lon)), "lat", Attrs(lat));
      forall c :: c in r.columns <==> c in df.columns || c in {FidColumn, GeometryColumn, "lon", "lat"}
  {
    ReorderedLabels(df, g, ids, points);
    AssignedLabels(ids, lon, lat, df.columns);
  }

  /** After the reorder the labels are the read table's plus `fid` and `geometry`. */
  lemma ReorderedLabels(df: Table<Value>, g: Table<Cell>, ids: Table<Cell>, points: seq<Geometry>)
    requires ReorderedFrom(df, g, ids, points)
    ensures forall c :: c in ids.columns <==> c in df.columns || c == FidColumn || c == GeometryColumn
  {
    SetColumnLabels(Lift(df), GeometryColumn, Shapes(points));
  }

  /** Setting `lon` and `lat` adds exactly those two labels. */
  lemma AssignedLabels(ids: Table<Cell>, lon: seq<Value>, lat: seq<Value>, read: seq<string>)
    requires Valid(ids) && |lon| == |lat| == |ids.rows|
    requires forall c :: c in ids.columns <==> c in read || c == FidColumn || c == GeometryColumn
    ensures var r := SetColumn(SetColumn(ids, "lon", Attrs(lon)), "lat", Attrs(lat));
      forall c :: c in r.columns <==> c in read || c in {FidColumn, GeometryColumn, "lon", "lat"}
  {
    SetColumnLabels(ids, "lon", Attrs(lon));
    SetColumnLabels(SetColumn(ids, "lon", Attrs(lon)), "lat", Attrs(lat));
  }

  /** Setting a column adds at most its own label. */
  lemma SetColumnLabels(t: Table<Cell>, name: string, values: seq<Cell>)
    requires Valid(t) && |values| == |t.rows|
    ensures forall c :: c in SetColumn(t, name, values).columns <==> c in t.columns || c == name
  {
  }

  lemma LayerGeometry(df: Table<Value>, g: Table<Cell>, ids: Table<Cell>, points: seq<Geometry>, lon: seq<Value>, lat: seq<Value>)
    requires ReorderedFrom(df, g, ids, points) && |lon| == |lat| == |df.rows|
    ensures var r := SetColumn(SetColumn(ids, "lon", Attrs(lon)), "lat", Attrs(lat));
      && GeometryColumn in r.columns && ColumnNamed(r, GeometryColumn) == Shapes(points)
      && "lon" in r.columns && ColumnNamed(r, "lon") == Attrs(lon)
      && "lat" in r.columns && ColumnNamed(r, "lat") == Attrs(lat)
  {
    assert GeometryColumn in g.columns;
    assert ColumnNamed(ids, GeometryColumn) == Shapes(points);
    var withLon := SetColumn(ids, "lon", Attrs(lon));
    SetColumnKeeps(ids, "lon", Attrs(lon), GeometryColumn);
    SetColumnKeeps(withLon, "lat", Attrs(lat), GeometryColumn);
    SetColumnKeeps(withLon, "lat", Attrs(lat), "lon");
  }

  /** Setting one column leaves another column, present before, in place. */
  lemma SetColumnKeeps(t: Table<Cell>, name: string, values: seq<Cell>, c: string)
    requires Valid(t) && |values| == |t.rows| && c in t.columns && c != name
    ensures c in SetColumn(t, name, values).columns
    ensures ColumnNamed(SetColumn(t, name, values), c) == ColumnNamed(t, c)
  {
  }

  lemma LayerKeeps(df: Table<Value>, g: Table<Cell>, ids: Table<Cell>, points: seq<Geometry>, lon: seq<Value>, lat: seq<Value>)
    requires ReorderedFrom(df, g, ids, points) && |lon| == |lat| == |df.rows|
    ensures var r := SetColumn(SetColumn(ids, "lon", Attrs(lon)), "lat", Attrs(lat));
      forall c | c in df.columns && c !in {FidColumn, GeometryColumn, "lon", "lat"} ::
        c in r.columns && ColumnNamed(r, c) == Attrs(ColumnNamed(df, c))
  {
    forall c | c in df.columns && c !in {FidColumn, GeometryColumn, "lon", "lat"}
      ensures var r := SetColumn(SetColumn(ids, "lon", Attrs(lon)), "lat", Attrs(lat));
        c in r.columns && ColumnNamed(r, c) == Attrs(ColumnNamed(df, c))
    {
      LayerKeepsColumn(df, g, ids, points, lon, lat, c);
    }
  }

  /** One read column other than `fid`, `geometry`, `lon`, `lat` reaches the layer. */
  lemma LayerKeepsColumn(df: Table<Value>, g: Table<Cell>, ids: Table<Cell>, points: seq<Geometry>,
                         lon: seq<Value>, lat: seq<Value>, c: string)
    requires ReorderedFrom(df, g, ids, points) && |lon| == |lat| == |df.rows|
    requires c in df.columns && c != FidColumn && c != GeometryColumn && c != "lon" && c != "lat"
    ensures var r := SetColumn(SetColumn(ids, "lon", Attrs(lon)), "lat", Attrs(lat));
      c in r.columns && ColumnNamed(r, c) == Attrs(ColumnNamed(df, c))
  {
    assert c in g.columns;
    assert ColumnNamed(ids, c) == ColumnNamed(g, c) == ColumnNamed(Lift(df), c);
    LiftColumn(df, c);
    var withLon := SetColumn(ids, "lon", Attrs(lon));
    assert ColumnNamed(withLon, c) == ColumnNamed(ids, c);
  }

  /** Proof step of `PointLayerFacts`: with both coordinate columns present
      the layer is built without failure from the reordered frame. */
  lemma PointLayerIs(df: Table<Value>, points: seq<Geometry>, lon: seq<Value>, lat: seq<Value>)
    requires Valid(df) && |points| == |lon| == |lat| == |df.rows|
    requires "Easting" in df.columns && "Northing" in df.columns
    ensures var ids := Identify(SetColumn(Lift(df), GeometryColumn, Shapes(points)));
      PointLayer(df, points, lon, lat) == Ok(SetColumn(SetColumn(ids, "lon", Attrs(lon)), "lat", Attrs(lat)))
  {
  }

  lemma LiftColumn(df: Table<Value>, c: string)
    requires Valid(df) && c in df.columns
    ensures ColumnNamed(Lift(df), c) == Attrs(ColumnNamed(df, c))
  {
  }

  /** Lines 50-57: the buffer layer, whose only geometry is the normalised
      buffer of each point; `raw` are the buffers as the geometry library
      returns them. */
  function BufferLayer(layer: Table<Cell>, raw: seq<Geometry>): (r: Table<Cell>)
    requires Valid(layer) && |raw| == |layer.rows| && GeometryColumn in layer.columns
  {
    var withBuffer := SetColumn(layer, BufferColumn, Shapes(NormalizeAll(raw)));
    Drop(withBuffer, [GeometryColumn]).value
  }

  /** The buffer layer has the same records in the same order, no `geometry`
      column, a `buffer` column of normalised buffers none of which is a bare
      polygon, and every other column of the point layer unchanged. */
  lemma BufferLayerFacts(layer: Table<Cell>, raw: seq<Geometry>)
    requires Valid(layer) && |raw| == |layer.rows| && GeometryColumn in layer.columns
    ensures var r := BufferLayer(layer, raw);
      && Valid(r) && |r.rows| == |layer.rows|
      && GeometryColumn !in r.columns
      && BufferColumn in r.columns
      && (forall c :: c in r.columns <==> (c in layer.columns || c == BufferColumn) && c != GeometryColumn)
      && ColumnNamed(r, BufferColumn) == Shapes(NormalizeAll(raw))
      && (forall i | 0 <= i < |r.rows| :: GeomType(ColumnNamed(r, BufferColumn)[i].g) != "Polygon")
      && (forall c | c in layer.columns && c !in {GeometryColumn, BufferColumn} ::
            c in r.columns && ColumnNamed(r, c) == ColumnNamed(layer, c))
  {
    var withBuffer := SetColumn(layer, BufferColumn, Shapes(NormalizeAll(raw)));
    var r := BufferLayer(layer, raw);
    assert ColumnNamed(r, BufferColumn) == ColumnNamed(withBuffer, BufferColumn);
  }

  /** The labels the report adds on the right, spelled as the files carry them. */
  const GeoLabels: seq<string> := ["lon", "lat", "Lontitude", "Latitude"]

  /** The columns `df.drop` removes before the report: `geometry` on the
      spreadsheet path, `geometry` and `ins_date` on the CSV path. */
  const ExcelDropped: seq<string> := [GeometryColumn]
  const CsvDropped: seq<string> := [GeometryColumn, "ins_date"]

  /** The four columns taken from the reprojected frame. `lonText` and
      `latText` are the degree-minute-second strings of each record. */
  function GeoColumns(lon: seq<Value>, lat: seq<Value>, lonText: seq<string>, latText: seq<string>)
    : (t: Table<Value>)
    requires |lon| == |lat| == |lonText| == |latText|
    ensures Valid(t) && t.columns == GeoLabels && |t.rows| == |lon|
  {
    Table(GeoLabels, seq(|lon|, i requires 0 <= i < |lon| =>
      [lon[i], lat[i], Str(lonText[i]), Str(latText[i])]))
  }

  /** Only the `geometry` column holds geometries. */
  predicate ShapesOnlyInGeometry(t: Table<Cell>)
    requires Valid(t)
  {
    AttrsOutside(t, GeometryColumn)
  }

  /** A geometry-free frame as plain values. */
  function Lower(t: Table<Cell>): (r: Table<Value>)
    requires Valid(t) && forall i, k | 0 <= i < |t.rows| && 0 <= k < |t.columns| :: t.rows[i][k].Attr?
    ensures Valid(r) && r.columns == t.columns && |r.rows| == |t.rows|
    ensures forall i, k | 0 <= i < |r.rows| && 0 <= k < |r.columns| :: Attr(r.rows[i][k]) == t.rows[i][k]
  {
    Table(t.columns, seq(|t.rows|, i requires 0 <= i < |t.rows| =>
      seq(|t.rows[i]|, k requires 0 <= k < |t.rows[i]| => t.rows[i][k].v)))
  }

  /** Reading a geometry-free frame as plain values keeps every labelled
      column's cells. */
  lemma LowerColumn(t: Table<Cell>, c: string)
    requires Valid(t) && forall i, k | 0 <= i < |t.rows| && 0 <= k < |t.columns| :: t.rows[i][k].Attr?
    requires c in t.columns
    ensures c in Lower(t).columns && Attrs(ColumnNamed(Lower(t), c)) == ColumnNamed(t, c)
  {
  }

  /** Lines 76 and 127: the report table, `frame` minus the dropped columns
      with the four geographic columns concatenated on the right. `frame` is
      the input frame `df` as it stands at that line. */
  function ProcessedTable(frame: Table<Cell>, dropped: seq<string>, geo: Table<Value>)
    : (r: Result<Table<Value>>)
    requires Valid(frame) && ShapesOnlyInGeometry(frame) && GeometryColumn in dropped
    requires Valid(geo) && |geo.rows| == |frame.rows|
  {
    var kept :- Drop(frame, dropped);
    assert forall i, k | 0 <= i < |kept.rows| && 0 <= k < |kept.columns| :: kept.rows[i][k].Attr? by {
      forall i, k | 0 <= i < |kept.rows| && 0 <= k < |kept.columns|
        ensures kept.rows[i][k].Attr?
      {
        var c := kept.columns[k];
        assert ColumnNamed(kept, c) == ColumnNamed(frame, c);
        assert Column(kept, k)[i] == kept.rows[i][k];
        assert Column(frame, IndexOf(frame.columns, c))[i].Attr?;
      }
    }
    Ok(ConcatColumns(Lower(kept), geo))
  }

  /** The report fails exactly when a dropped label is missing from the
      frame; otherwise it has one row per record, the frame's other columns in
      their order followed by `lon`, `lat`, `Lontitude`, `Latitude`, and each
      row ends with that record's geographic values. */
  lemma ProcessedTableFacts(frame: Table<Cell>, dropped: seq<string>,
                            lon: seq<Value>, lat: seq<Value>, lonText: seq<string>, latText: seq<string>)
    requires Valid(frame) && ShapesOnlyInGeometry(frame) && GeometryColumn in dropped
    requires |lon| == |lat| == |lonText| == |latText| == |frame.rows|
    ensures var r := ProcessedTable(frame, dropped, GeoColumns(lon, lat, lonText, latText));
      && (r.Err? <==> exists n | n in dropped :: n !in frame.columns)
      && (r.Err? ==> r.error.name in dropped && r.error.name !in frame.columns)
      && (r.Ok? ==>
            && |r.value.rows| == |frame.rows|
            && r.value.columns == Remove(frame.columns, dropped) + GeoLabels
            && (forall i | 0 <= i < |frame.rows| ::
                 r.value.rows[i][|r.value.columns| - 4..] == [lon[i], lat[i], Str(lonText[i]), Str(latText[i])])
            && (forall i, k | 0 <= i < |frame.rows| && 0 <= k < |Remove(frame.columns, dropped)| ::
                 Attr(r.value.rows[i][k]) == frame.rows[i][IndexOf(frame.columns, Remove(frame.columns, dropped)[k])])
            && ((forall c | c in GeoLabels :: c !in Remove(frame.columns, dropped)) ==> Valid(r.value)))
  {
    var geo := GeoColumns(lon, lat, lonText, latText);
    if ProcessedTable(frame, dropped, geo).Ok? {
      ProcessedTableShape(frame, dropped, geo);
      ProcessedTableCells(frame, dropped, geo);
    }
  }

  /** A report that was built has one row per record and the kept labels
      followed by the geographic ones; each row ends with that record's
      geographic values, and it is a frame when no label is on both sides. */
  lemma ProcessedTableShape(frame: Table<Cell>, dropped: seq<string>, geo: Table<Value>)
    requires Valid(frame) && ShapesOnlyInGeometry(frame) && GeometryColumn in dropped
    requires Valid(geo) && |geo.rows| == |frame.rows|
    requires ProcessedTable(frame, dropped, geo).Ok?
    ensures var r := ProcessedTable(frame, dropped, geo).value;
      && |r.rows| == |frame.rows|
      && r.columns == Remove(frame.columns, dropped) + geo.columns
      && (forall i | 0 <= i < |frame.rows| :: r.rows[i][|r.columns| - |geo.columns|..] == geo.rows[i])
      && ((forall c | c in geo.columns :: c !in Remove(frame.columns, dropped)) ==> Valid(r))
  {
    var r := ProcessedTable(frame, dropped, geo).value;
    var kept := Drop(frame, dropped).value;
    assert r == ConcatColumns(Lower(kept), geo);
    if forall c | c in geo.columns :: c !in Remove(frame.columns, dropped) {
      ConcatColumnsFacts(Lower(kept), geo);
    }
    forall i | 0 <= i < |frame.rows|
      ensures r.rows[i][|r.columns| - |geo.columns|..] == geo.rows[i]
    {
      assert r.rows[i] == Lower(kept).rows[i] + geo.rows[i];
      assert |Lower(kept).rows[i]| == |kept.columns|;
    }
  }

  /** Each kept column of the report carries the frame's cells, row by row. */
  lemma ProcessedTableCells(frame: Table<Cell>, dropped: seq<string>, geo: Table<Value>)
    requires Valid(frame) && ShapesOnlyInGeometry(frame) && GeometryColumn in dropped
    requires Valid(geo) && |geo.rows| == |frame.rows|
    requires ProcessedTable(frame, dropped, geo).Ok?
    ensures var r := ProcessedTable(frame, dropped, geo).value;
      var names := Remove(frame.columns, dropped);
      forall i, k | 0 <= i < |frame.rows| && 0 <= k < |names| ::
        Attr(r.rows[i][k]) == frame.rows[i][IndexOf(frame.columns, names[k])]
  {
    var r := ProcessedTable(frame, dropped, geo).value;
    var names := Remove(frame.columns, dropped);
    var kept := Drop(frame, dropped).value;
    assert kept == Select(frame, names);
    forall i, k | 0 <= i < |frame.rows| && 0 <= k < |names|
      ensures Attr(r.rows[i][k]) == frame.rows[i][IndexOf(frame.columns, names[k])]
    {
      assert r.rows[i] == Lower(kept).rows[i] + geo.rows[i];
      assert r.rows[i][k] == Lower(kept).rows[i][k];
      assert kept.rows[i][k] == frame.rows[i][IndexOf(frame.columns, names[k])];
    }
  }

  /** The frame `df` at line 76 when the geo-frame constructor shares the
      read frame's storage: the point geometry and the ids were added to it
      as well, so it is the geo-frame before the reorder. */
  function SharedFrame(df: Table<Value>, points: seq<Geometry>): (r: Table<Cell>)
    requires Valid(df) && |points| == |df.rows|
    ensures Valid(r) && ShapesOnlyInGeometry(r) && GeometryColumn in r.columns
  {
    GeoFrameShapes(df, points);
    AssignFid(SetColumn(Lift(df), GeometryColumn, Shapes(points)))
  }

  /** In the geo-frame only `geometry` holds geometries. */
  lemma GeoFrameShapes(df: Table<Value>, points: seq<Geometry>)
    requires Valid(df) && |points| == |df.rows|
    ensures var r := AssignFid(SetColumn(Lift(df), GeometryColumn, Shapes(points)));
      ShapesOnlyInGeometry(r) && GeometryColumn in r.columns
  {
    var g := SetColumn(Lift(df), GeometryColumn, Shapes(points));
    SetColumnAttrs(Lift(df), GeometryColumn, Shapes(points), GeometryColumn);
    SetColumnAttrs(g, FidColumn, FidValues(|df.rows|), GeometryColumn);
  }

  /** With a shared frame, the spreadsheet report always succeeds, and the
      CSV report succeeds exactly when the read table has `ins_date`. */
  lemma SharedFrameReport(df: Table<Value>, points: seq<Geometry>, csv: bool,
                          lon: seq<Value>, lat: seq<Value>, lonText: seq<string>, latText: seq<string>)
    requires Valid(df) && |points| == |lon| == |lat| == |lonText| == |latText| == |df.rows|
    ensures var frame := SharedFrame(df, points);
      var r := ProcessedTable(frame, if csv then CsvDropped else ExcelDropped, GeoColumns(lon, lat, lonText, latText));
      r.Ok? <==> (csv ==> "ins_date" in df.columns)
  {
    var frame := SharedFrame(df, points);
    var dropped := if csv then CsvDropped else ExcelDropped;
    ProcessedTableFails(frame, dropped, GeoColumns(lon, lat, lonText, latText));
    SharedFrameLabels(df, points);
    if csv && "ins_date" !in df.columns {
      assert "ins_date" in dropped && "ins_date" !in frame.columns;
    } else {
      assert forall n | n in dropped :: n in frame.columns;
    }
  }

  /** The shared frame's labels are the read table's plus `geometry` and `fid`. */
  lemma SharedFrameLabels(df: Table<Value>, points: seq<Geometry>)
    requires Valid(df) && |points| == |df.rows|
    ensures forall c :: c in SharedFrame(df, points).columns <==> c in df.columns || c == GeometryColumn || c == FidColumn
  {
    var g := SetColumn(Lift(df), GeometryColumn, Shapes(points));
    SetColumnLabels(Lift(df), GeometryColumn, Shapes(points));
    SetColumnLabels(g, FidColumn, FidValues(|df.rows|));
  }

  /** The report fails exactly when a dropped label is missing from the frame. */
  lemma ProcessedTableFails(frame: Table<Cell>, dropped: seq<string>, geo: Table<Value>)
    requires Valid(frame) && ShapesOnlyInGeometry(frame) && GeometryColumn in dropped
    requires Valid(geo) && |geo.rows| == |frame.rows|
    ensures ProcessedTable(frame, dropped, geo).Err? <==> exists n | n in dropped :: n !in frame.columns
  {
  }

  /** With a frame the constructor copied, `df` never gained `geometry`: a
      read table without that column makes the report fail on it. */
  lemma CopiedFrameReport(df: Table<Value>, csv: bool,
                          lon: seq<Value>, lat: seq<Value>, lonText: seq<string>, latText: seq<string>)
    requires Valid(df) && |lon| == |lat| == |lonText| == |latText| == |df.rows|
    requires GeometryColumn !in df.columns
    ensures var r := ProcessedTable(Lift(df), if csv then CsvDropped else ExcelDropped, GeoColumns(lon, lat, lonText, latText));
      r == Err(MissingColumn(GeometryColumn))
  {
  }

  /** Where a run writes and what it names. */
  datatype Outputs = Outputs(
    pointsPath: string,          // the point GeoJSON file
    pointsTitle: string,         // its top-level `name`
    buffer: Option<(string, string)>, // the buffer GeoJSON file and its `name`
    reportPath: string,          // the workbook the report goes to
    reportSheet: string)         // the sheet it is written to

  /** The output file named `prefix` + the input's date token + `ext`,
      joined onto the input's directory. */
  function OutputPath(input: string, prefix: string, ext: string): string
  {
    Join(Dirname(input), OutputName(prefix, DateTokenOf(input), ext))
  }

  /** An output file lies in the input's directory, is named prefix + date
      token + extension, and reading its token gives the input's token back. */
  lemma OutputPathFacts(input: string, prefix: string, ext: string)
    requires TokenFriendly(prefix, ext)
    ensures Dirname(OutputPath(input, prefix, ext)) == Dirname(input)
    ensures Basename(OutputPath(input, prefix, ext)) == prefix + DateTokenOf(input) + ext
    ensures DateTokenOf(OutputPath(input, prefix, ext)) == DateTokenOf(input)
  {
    var token := DateTokenOf(input);
    var name := OutputName(prefix, token, ext);
    NoCharInOutputName(prefix, token, ext, '/');
    OutputBesideInput(input, name);
    OutputNameRoundTrip(prefix, token, ext);
    DateTokenOfJoin(Dirname(input), name);
  }

  /** `process_excel_file`: both GeoJSON files beside the input and named
      after its date token, the point file titled with the input's own name,
      the buffer file with its own name, and the report written into the
      input workbook as sheet `processed`. */
  function ExcelOutputs(input: string): (o: Outputs)
    ensures Dirname(o.pointsPath) == Dirname(input)
    ensures Basename(o.pointsPath) == ExcelPointsPrefix + DateTokenOf(input) + GeoJsonExt
    ensures DateTokenOf(o.pointsPath) == DateTokenOf(input)
    ensures o.pointsTitle == Basename(input)
    ensures o.buffer.Some? && Dirname(o.buffer.value.0) == Dirname(input)
    ensures Basename(o.buffer.value.0) == o.buffer.value.1 == BufferPrefix + DateTokenOf(input) + GeoJsonExt
    ensures DateTokenOf(o.buffer.value.0) == DateTokenOf(input)
    ensures o.reportPath == input && o.reportSheet == "processed"
  {
    OutputShapesTokenFriendly();
    OutputPathFacts(input, ExcelPointsPrefix, GeoJsonExt);
    OutputPathFacts(input, BufferPrefix, GeoJsonExt);
    Outputs(OutputPath(input, ExcelPointsPrefix, GeoJsonExt), Basename(input),
            Some((OutputPath(input, BufferPrefix, GeoJsonExt), ExcelBufferName(DateTokenOf(input)))),
            input, "processed")
  }

  /** `process_csv_file`: the point GeoJSON file and a new workbook, both
      beside the input and named after its date token, the GeoJSON file
      titled with the input's own name. */
  function CsvOutputs(input: string): (o: Outputs)
    ensures Dirname(o.pointsPath) == Dirname(input)
    ensures Basename(o.pointsPath) == CsvPrefix + DateTokenOf(input) + GeoJsonExt
    ensures DateTokenOf(o.pointsPath) == DateTokenOf(input)
    ensures o.pointsTitle == Basename(input) && o.buffer.None?
    ensures Dirname(o.reportPath) == Dirname(input)
    ensures Basename(o.reportPath) == CsvPrefix + DateTokenOf(input) + XlsxExt
    ensures DateTokenOf(o.reportPath) == DateTokenOf(input)
    ensures o.reportSheet == "Sheet1"
  {
    OutputShapesTokenFriendly();
    OutputPathFacts(input, CsvPrefix, GeoJsonExt);
    OutputPathFacts(input, CsvPrefix, XlsxExt);
    Outputs(OutputPath(input, CsvPrefix, GeoJsonExt), Basename(input), None,
            OutputPath(input, CsvPrefix, XlsxExt), "Sheet1")
  }

  /** The token of a path depends only on its file name. */
  lemma DateTokenOfJoin(dir: string, name: string)
    requires '/' !in name
    ensures DateTokenOf(Join(dir, name)) == DateTokenOf(name)
  {
    BasenameOfJoin(dir, name);
    assert Basename(name) == name by { BasenameOfJoin("", name); }
  }
}
