/** Data frames as labelled columns over rows of cells, and the column
    operations the pipelines perform on them: setting a column, selecting
    columns by label, dropping columns, concatenating side by side, and the
    feature-id assignment followed by the fid-first reorder. */
module Frames {
  import opened Values
  import opened Geometry

  /** A frame: column labels, then one row of cells per record, in record order. */
  datatype Table<C> = Table(columns: seq<string>, rows: seq<seq<C>>)

  /** A cell of a geo-frame: an attribute value or a geometry. */
  datatype Cell = Attr(v: Value) | Shape(g: Geometry)

  predicate Distinct(s: seq<string>)
  {
    forall i, j | 0 <= i < j < |s| :: s[i] != s[j]
  }

  /** Every row has one cell per column and no label occurs twice (the
      spreadsheet and CSV readers rename repeated headers). */
  predicate Valid<C>(t: Table<C>)
  {
    Distinct(t.columns) && forall i | 0 <= i < |t.rows| :: |t.rows[i]| == |t.columns|
  }

  /** Position of the first occurrence of `x` in `s`. */
  function IndexOf(s: seq<string>, x: string): (k: nat)
    requires x in s
    ensures k < |s| && s[k] == x
    ensures forall j | 0 <= j < k :: s[j] != x
  {
    if s[0] == x then 0 else 1 + IndexOf(s[1..], x)
  }

  lemma IndexOfDistinct(s: seq<string>, k: nat)
    requires Distinct(s) && k < |s|
    ensures IndexOf(s, s[k]) == k
  {
  }

  /** The cells of column `k`, top to bottom. */
  function Column<C>(t: Table<C>, k: nat): (cells: seq<C>)
    requires Valid(t) && k < |t.columns|
    ensures |cells| == |t.rows|
  {
    seq(|t.rows|, i requires 0 <= i < |t.rows| => t.rows[i][k])
  }

  /** The cells of the column labelled `name`. */
  function ColumnNamed<C>(t: Table<C>, name: string): (cells: seq<C>)
    requires Valid(t) && name in t.columns
    ensures |cells| == |t.rows|
  {
    Column(t, IndexOf(t.columns, name))
  }

  /** `frame[name] = values`: an existing column is overwritten in its place,
      a new one is appended on the right. */
  function SetColumn<C>(t: Table<C>, name: string, values: seq<C>): (r: Table<C>)
    requires Valid(t) && |values| == |t.rows|
    ensures Valid(r) && |r.rows| == |t.rows|
    ensures r.columns == if name in t.columns then t.columns else t.columns + [name]
    ensures ColumnNamed(r, name) == values
    ensures forall c | c in t.columns && c != name :: ColumnNamed(r, c) == ColumnNamed(t, c)
  {
    if name in t.columns then Overwrite(t, name, values) else Append(t, name, values)
  }

  /** The column labelled `name` replaced by `values`. */
  function Overwrite<C>(t: Table<C>, name: string, values: seq<C>): (r: Table<C>)
    requires Valid(t) && |values| == |t.rows| && name in t.columns
    ensures Valid(r) && |r.rows| == |t.rows| && r.columns == t.columns
    ensures ColumnNamed(r, name) == values
    ensures forall c | c in t.columns && c != name :: ColumnNamed(r, c) == ColumnNamed(t, c)
  {
    var k := IndexOf(t.columns, name);
    var r := Table(t.columns, seq(|t.rows|, i requires 0 <= i < |t.rows| =>
      t.rows[i][k := values[i]]));
    forall c | c in t.columns && c != name
      ensures ColumnNamed(r, c) == ColumnNamed(t, c)
    {
      assert IndexOf(r.columns, c) != k;
    }
    r
  }

  /** `values` appended as a new rightmost column labelled `name`. */
  function Append<C>(t: Table<C>, name: string, values: seq<C>): (r: Table<C>)
    requires Valid(t) && |values| == |t.rows| && name !in t.columns
    ensures Valid(r) && |r.rows| == |t.rows| && r.columns == t.columns + [name]
    ensures ColumnNamed(r, name) == values
    ensures forall c | c in t.columns :: ColumnNamed(r, c) == ColumnNamed(t, c)
  {
    var r := Table(t.columns + [name], seq(|t.rows|, i requires 0 <= i < |t.rows| =>
      t.rows[i] + [values[i]]));
    IndexOfDistinct(r.columns, |t.columns|);
    forall c | c in t.columns
      ensures ColumnNamed(r, c) == ColumnNamed(t, c)
    {
      IndexOfPrefix(t.columns, [name], c);
    }
    r
  }

  lemma IndexOfPrefix(s: seq<string>, tail: seq<string>, x: string)
    requires x in s
    ensures IndexOf(s + tail, x) == IndexOf(s, x)
  {
    if s[0] != x {
      assert (s + tail)[1..] == s[1..] + tail;
      IndexOfPrefix(s[1..], tail, x);
    }
  }

  /** `frame[names]`: the columns with those labels, in that order. */
  function Select<C>(t: Table<C>, names: seq<string>): (r: Table<C>)
    requires Valid(t) && Distinct(names) && forall n | n in names :: n in t.columns
    ensures Valid(r) && r.columns == names && |r.rows| == |t.rows|
    ensures forall n | n in names :: ColumnNamed(r, n) == ColumnNamed(t, n)
  {
    var r := Table(names, seq(|t.rows|, i requires 0 <= i < |t.rows| =>
      seq(|names|, j requires 0 <= j < |names| => t.rows[i][IndexOf(t.columns, names[j])])));
    assert forall n | n in names :: ColumnNamed(r, n) == ColumnNamed(t, n) by {
      forall n | n in names ensures ColumnNamed(r, n) == ColumnNamed(t, n) {
        var j := IndexOf(names, n);
      }
    }
    r
  }

  /** `[col for col in cols if col != x]`. */
  function Without(cols: seq<string>, x: string): (r: seq<string>)
    ensures x !in r
    ensures forall c :: c in r <==> c in cols && c != x
  {
    if cols == [] then []
    else if cols[0] == x then Without(cols[1..], x)
    else [cols[0]] + Without(cols[1..], x)
  }

  /** The filter keeps every other label exactly as often as it occurs. */
  lemma {:induction false} WithoutCounts(cols: seq<string>, x: string)
    ensures multiset(Without(cols, x)) == multiset(cols)[x := 0]
  {
    if cols != [] {
      WithoutCounts(cols[1..], x);
      assert cols == [cols[0]] + cols[1..];
    }
  }

  lemma {:induction false} WithoutDistinct(cols: seq<string>, x: string)
    requires Distinct(cols)
    ensures Distinct(Without(cols, x))
  {
    if cols != [] {
      WithoutDistinct(cols[1..], x);
      assert cols[0] !in cols[1..];
    }
  }

  lemma {:induction false} WithoutAppend(cols: seq<string>, extra: seq<string>, x: string)
    ensures Without(cols + extra, x) == Without(cols, x) + Without(extra, x)
  {
    if cols != [] {
      assert (cols + extra)[1..] == cols[1..] + extra;
      WithoutAppend(cols[1..], extra, x);
    } else {
      assert cols + extra == extra;
    }
  }

  const FidColumn := "fid"

  /** The ids written into `fid`: 1, 2, ..., n. */
  function FidValues(n: nat): (ids: seq<Cell>)
    ensures |ids| == n
    ensures forall i | 0 <= i < n :: ids[i] == Attr(Int(i + 1))
  {
    seq(n, i requires 0 <= i < n => Attr(Int(i + 1)))
  }

  /** `gdf['fid'] = range(1, len(gdf) + 1)`. */
  function AssignFid(t: Table<Cell>): (r: Table<Cell>)
    requires Valid(t)
  {
    SetColumn(t, FidColumn, FidValues(|t.rows|))
  }

  /** `gdf[['fid'] + [col for col in gdf.columns if col != 'fid']]`. */
  function FidFirst(t: Table<Cell>): (r: Table<Cell>)
    requires Valid(t) && FidColumn in t.columns
  {
    WithoutDistinct(t.columns, FidColumn);
    Select(t, [FidColumn] + Without(t.columns, FidColumn))
  }

  /** Id assignment and reorder as the pipelines do them, one after the other. */
  function Identify(t: Table<Cell>): (r: Table<Cell>)
    requires Valid(t)
  {
    FidFirst(AssignFid(t))
  }

  /** After id assignment and reorder: the same records in the same order, the
      ids 1..N in record order in the first column, the label `fid` exactly
      once, and every other column in its original relative order with its
      cells untouched. */
  lemma IdentifyFacts(t: Table<Cell>)
    requires Valid(t)
    ensures var r := Identify(t);
      && Valid(r)
      && |r.rows| == |t.rows|
      && r.columns == [FidColumn] + Without(t.columns, FidColumn)
      && multiset(r.columns)[FidColumn] == 1
      && multiset(r.columns) == multiset(t.columns)[FidColumn := 1]
      && (forall i | 0 <= i < |r.rows| :: r.rows[i][0] == Attr(Int(i + 1)))
      && (forall c | c in t.columns && c != FidColumn :: ColumnNamed(r, c) == ColumnNamed(t, c))
  {
    IdentifyColumns(t);
    IdentifyIds(t);
  }

  /** The reordered labels: `fid`, then the others in their order. */
  lemma IdentifyColumns(t: Table<Cell>)
    requires Valid(t)
    ensures var r := Identify(t);
      && r.columns == [FidColumn] + Without(t.columns, FidColumn)
      && multiset(r.columns) == multiset(t.columns)[FidColumn := 1]
  {
    var a := AssignFid(t);
    var r := Identify(t);
    if FidColumn in t.columns {
      assert a.columns == t.columns;
    } else {
      WithoutAppend(t.columns, [FidColumn], FidColumn);
      assert Without([FidColumn], FidColumn) == [];
    }
    assert Without(a.columns, FidColumn) == Without(t.columns, FidColumn);
    MovedFirstCounts(t.columns, FidColumn);
  }

  /** Moving `x` to the front, once, keeps every other label's count. */
  lemma MovedFirstCounts(cols: seq<string>, x: string)
    ensures multiset([x] + Without(cols, x)) == multiset(cols)[x := 1]
  {
    WithoutCounts(cols, x);
  }

  /** The first column holds the ids 1..N in record order. */
  lemma IdentifyIds(t: Table<Cell>)
    requires Valid(t)
    ensures var r := Identify(t);
      forall i | 0 <= i < |r.rows| :: r.rows[i][0] == Attr(Int(i + 1))
  {
    var a := AssignFid(t);
    var r := Identify(t);
    assert IndexOf(r.columns, FidColumn) == 0;
    assert ColumnNamed(r, FidColumn) == ColumnNamed(a, FidColumn) == FidValues(|t.rows|);
    forall i | 0 <= i < |r.rows|
      ensures r.rows[i][0] == Attr(Int(i + 1))
    {
      assert Column(r, 0)[i] == r.rows[i][0];
    }
  }

  /** Every cell outside the column labelled `g` is an attribute. */
  predicate AttrsOutside(t: Table<Cell>, g: string)
    requires Valid(t)
  {
    forall i, k | 0 <= i < |t.rows| && 0 <= k < |t.columns| && t.columns[k] != g ::
      t.rows[i][k].Attr?
  }

  /** Setting column `g`, or setting any column to attributes, keeps every
      cell outside `g` an attribute. */
  lemma SetColumnAttrs(t: Table<Cell>, name: string, values: seq<Cell>, g: string)
    requires Valid(t) && |values| == |t.rows| && AttrsOutside(t, g)
    requires name == g || forall i | 0 <= i < |values| :: values[i].Attr?
    ensures AttrsOutside(SetColumn(t, name, values), g)
  {
    var r := SetColumn(t, name, values);
    forall i, k | 0 <= i < |r.rows| && 0 <= k < |r.columns| && r.columns[k] != g
      ensures r.rows[i][k].Attr?
    {
      if name in t.columns {
        var j := IndexOf(t.columns, name);
        assert r.rows[i] == t.rows[i][j := values[i]];
      } else {
        assert r.rows[i] == t.rows[i] + [values[i]];
      }
    }
  }

  /** `frame.drop(columns=names)`: pandas raises a KeyError when a label is absent. */
  function Drop<C>(t: Table<C>, names: seq<string>): (r: Result<Table<C>>)
    requires Valid(t)
    ensures r.Err? <==> exists n | n in names :: n !in t.columns
    ensures r.Err? ==> r.error.name in names && r.error.name !in t.columns
    ensures r.Ok? ==> Valid(r.value) && |r.value.rows| == |t.rows|
    ensures r.Ok? ==> r.value.columns == Remove(t.columns, names)
    ensures r.Ok? ==> forall c :: c in r.value.columns <==> c in t.columns && c !in names
    ensures r.Ok? ==> forall c | c in r.value.columns :: ColumnNamed(r.value, c) == ColumnNamed(t, c)
  {
    var missing := Missing(names, t.columns);
    if missing != [] then
      assert missing[0] in missing;
      Err(MissingColumn(missing[0]))
    else
      Ok(Select(t, Remove(t.columns, names)))
  }

  /** The labels of `names` that are not among `cols`, in their order. */
  function Missing(names: seq<string>, cols: seq<string>): (r: seq<string>)
    ensures forall n :: n in r <==> n in names && n !in cols
  {
    if names == [] then []
    else if names[0] in cols then Missing(names[1..], cols)
    else [names[0]] + Missing(names[1..], cols)
  }

  /** The labels of `cols` outside `names`, in their order. */
  function Remove(cols: seq<string>, names: seq<string>): (r: seq<string>)
    requires Distinct(cols)
    ensures Distinct(r)
    ensures forall c :: c in r <==> c in cols && c !in names
    decreases |names|
  {
    if names == [] then cols
    else
      WithoutDistinct(cols, names[0]);
      Remove(Without(cols, names[0]), names[1..])
  }

  /** `pd.concat([left, right], axis=1)` over frames with the same row index:
      the columns of `right` to the right of those of `left`, row by row. */
  function ConcatColumns<C>(left: Table<C>, right: Table<C>): (r: Table<C>)
    requires Valid(left) && Valid(right) && |left.rows| == |right.rows|
    ensures r.columns == left.columns + right.columns && |r.rows| == |left.rows|
    ensures forall i | 0 <= i < |r.rows| :: r.rows[i] == left.rows[i] + right.rows[i]
  {
    Table(left.columns + right.columns, seq(|left.rows|, i requires 0 <= i < |left.rows| =>
      left.rows[i] + right.rows[i]))
  }

  /** When no label occurs on both sides, the concatenation is a frame whose
      every label of `left` and of `right` carries that side's cells. */
  lemma ConcatColumnsFacts<C>(left: Table<C>, right: Table<C>)
    requires Valid(left) && Valid(right) && |left.rows| == |right.rows|
    requires forall c | c in left.columns :: c !in right.columns
    ensures var r := ConcatColumns(left, right);
      && Valid(r) && |r.rows| == |left.rows|
      && (forall c | c in left.columns :: ColumnNamed(r, c) == ColumnNamed(left, c))
      && (forall c | c in right.columns :: ColumnNamed(r, c) == ColumnNamed(right, c))
  {
    var r := ConcatColumns(left, right);
    var n := |left.columns|;
    assert Distinct(r.columns) by {
      forall i, j | 0 <= i < j < |r.columns| ensures r.columns[i] != r.columns[j] {
        if j >= n && i < n {
          assert r.columns[i] in left.columns && r.columns[j] in right.columns;
        }
      }
    }
    forall c | c in left.columns
      ensures ColumnNamed(r, c) == ColumnNamed(left, c)
    {
      IndexOfPrefix(left.columns, right.columns, c);
    }
    forall c | c in right.columns
      ensures ColumnNamed(r, c) == ColumnNamed(right, c)
    {
      var k := IndexOf(right.columns, c);
      IndexOfDistinct(r.columns, n + k);
      assert r.columns[n + k] == c;
    }
  }
}
