/** The column auto-sizing of the spreadsheet report: each column is made as
    wide as its longest cell text or its header, whichever is longer, plus two. */
module Report {
  import opened Values
  import opened Frames

  /** A column width as the script computes it. For a frame without rows,
      pandas' maximum of an empty column is NaN, and Python's `max(nan, n)`
      keeps the NaN, so the width is NaN too. */
  datatype Width = Chars(n: nat) | NaN

  function Max(a: nat, b: nat): nat { if b > a then b else a }

  /** The length of the longest cell text of a non-empty column. */
  function LongestText(cells: seq<Value>): nat
    requires |cells| > 0
  {
    if |cells| == 1 then |ToStr(cells[0])|
    else Max(|ToStr(cells[0])|, LongestText(cells[1..]))
  }

  /** The longest text is at least as long as every cell's text, and is the
      length of one of them. */
  lemma {:induction false} LongestTextFacts(cells: seq<Value>)
    requires |cells| > 0
    ensures forall i | 0 <= i < |cells| :: |ToStr(cells[i])| <= LongestText(cells)
    ensures exists i | 0 <= i < |cells| :: |ToStr(cells[i])| == LongestText(cells)
  {
    if |cells| > 1 {
      LongestTextFacts(cells[1..]);
      assert forall i | 1 <= i < |cells| :: cells[i] == cells[1..][i - 1];
      if LongestText(cells) != |ToStr(cells[0])| {
        var i :| 0 <= i < |cells[1..]| && |ToStr(cells[1..][i])| == LongestText(cells[1..]);
        assert |ToStr(cells[i + 1])| == LongestText(cells);
      }
    }
  }

  /** `max(df[column].astype(str).map(len).max(), len(column)) + 2` for the
      column at position `k`. */
  function ColumnWidth(t: Table<Value>, k: nat): Width
    requires Valid(t) && k < |t.columns|
  {
    if |t.rows| == 0 then NaN
    else Chars(Max(LongestText(Column(t, k)), |t.columns[k]|) + 2)
  }

  /** A column of a frame with rows gets the smallest width that is two
      characters wider than its header and than every cell's text; a column
      of a frame without rows gets NaN. */
  lemma ColumnWidthFacts(t: Table<Value>, k: nat)
    requires Valid(t) && k < |t.columns|
    ensures var w := ColumnWidth(t, k);
      && (w.NaN? <==> |t.rows| == 0)
      && (w.Chars? ==> w.n >= |t.columns[k]| + 2)
      && (w.Chars? ==> forall i | 0 <= i < |t.rows| :: w.n >= |ToStr(t.rows[i][k])| + 2)
      && (w.Chars? ==> w.n == |t.columns[k]| + 2 || exists i | 0 <= i < |t.rows| :: w.n == |ToStr(t.rows[i][k])| + 2)
  {
    if |t.rows| > 0 {
      var cells := Column(t, k);
      LongestTextFacts(cells);
      assert forall i | 0 <= i < |t.rows| :: cells[i] == t.rows[i][k];
    }
  }

  /** The worksheet the report is written to; only the column widths it
      carries are modelled, keyed by 1-based column number (the column letter
      openpyxl derives from it names the same column). */
  class Worksheet {
    var widths: map<nat, Width>

    constructor ()
      ensures widths == map[]
    {
      widths := map[];
    }

    /** For every column label of `t` in order, look up its position and set
        that column's width. Earlier widths of other columns stay. */
    method AutoSize(t: Table<Value>)
      requires Valid(t)
      modifies this
      ensures forall c :: c in widths <==> c in old(widths) || 1 <= c <= |t.columns|
      ensures forall k | 0 <= k < |t.columns| :: widths[k + 1] == ColumnWidth(t, k)
      ensures forall c | c in old(widths) && !(1 <= c <= |t.columns|) :: widths[c] == old(widths)[c]
    {
      var w := widths;
      var j := 0;
      while j < |t.columns|
        invariant 0 <= j <= |t.columns| && widths == old(widths)
        invariant forall c :: c in w <==> c in widths || 1 <= c <= j
        invariant forall k | 0 <= k < j :: w[k + 1] == ColumnWidth(t, k)
        invariant forall c | c in widths && !(1 <= c <= j) :: w[c] == widths[c]
      {
        var column := t.columns[j];
        var index := IndexOf(t.columns, column);
        IndexOfDistinct(t.columns, j);
        w := w[index + 1 := ColumnWidth(t, index)];
        j := j + 1;
      }
      widths := w;
    }
  }
}
