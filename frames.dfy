/** The part of a pandas DataFrame the core touches: an ordered sequence of
    named columns, each either textual (dtype `object`, cells that are
    strings or null) or of another dtype, whose cells the core never reads. */
module Frames {
  import opened Wrappers
  import opened Strings

  /** The cells of one column. The constructor is the column's dtype tag:
      `Text` is dtype `object`, `Other` any other dtype (numbers stand in
      for its values). */
  datatype ColumnData = Text(cells: seq<Option<string>>) | Other(values: seq<int>)

  datatype Column = Column(name: string, data: ColumnData)

  /** A DataFrame's columns, in order. */
  type Table = seq<Column>

  /** The errors the core raises on a table. */
  datatype FrameError =
    | ColumnMissing(name: string)     // assert col_name in df
    | NotTextColumn(name: string)     // assert dtype == object, or `.str` on another dtype
    | NotADataFrame(index: nat)       // assert type(df) == pd.DataFrame

  /** A mutable DataFrame object, shared between the caller and the core. */
  class DataFrame {
    var columns: Table

    constructor (columns: Table)
      ensures this.columns == columns
    {
      this.columns := columns;
    }
  }

  function RowCount(d: ColumnData): nat {
    match d
    case Text(cells) => |cells|
    case Other(values) => |values|
  }

  /** What a DataFrame read from a CSV file satisfies: column labels are
      unique and every column has the same number of rows. */
  predicate WellFormed(t: Table) {
    && (forall i, j :: 0 <= i < j < |t| ==> t[i].name != t[j].name)
    && (forall i :: 0 <= i < |t| ==> RowCount(t[i].data) == RowCount(t[0].data))
  }

  /** The position of the column called `name`, if there is one. */
  function IndexOf(t: Table, name: string): (r: Option<nat>)
    ensures r.Some? ==> r.value < |t| && t[r.value].name == name
    ensures r.Some? ==> forall k :: 0 <= k < r.value ==> t[k].name != name
    ensures r.None? <==> forall k :: 0 <= k < |t| ==> t[k].name != name
  {
    if t == [] then None
    else if t[0].name == name then Some(0)
    else match IndexOf(t[1..], name)
      case None => None
      case Some(k) => Some(k + 1)
  }

  /** `.str.lower().str.strip()` on one cell; nulls pass through. */
  function NormalizeCell(c: Option<string>): (r: Option<string>)
    ensures r.None? <==> c.None?
    ensures r.Some? ==> IsNormalized(r.value)
  {
    match c
    case None => None
    case Some(s) => Some(Normalize(s))
  }

  /** One step of the cleaning loop: a textual column whose label is not
      protected is normalised cell by cell; any other column is kept. */
  function CleanColumn(c: Column, ids: seq<string>): (r: Column)
    ensures r.name == c.name && r.data.Text? == c.data.Text?
    ensures RowCount(r.data) == RowCount(c.data)
    ensures c.data.Other? || c.name in ids ==> r == c
    ensures c.data.Text? && c.name !in ids ==>
      forall k :: 0 <= k < |c.data.cells| ==> r.data.cells[k] == NormalizeCell(c.data.cells[k])
  {
    if c.data.Text? && c.name !in ids
    then Column(c.name, Text(seq(|c.data.cells|, k requires 0 <= k < |c.data.cells| => NormalizeCell(c.data.cells[k]))))
    else c
  }

  /** The table a cleaning pass leaves: the same labels in the same order
      with the same row counts and dtypes; protected columns and
      non-textual columns unchanged; every other cell normalised. */
  function CleanTable(t: Table, ids: seq<string>): (r: Table)
    ensures |r| == |t|
    ensures forall i :: 0 <= i < |t| ==>
      r[i].name == t[i].name && r[i].data.Text? == t[i].data.Text? && RowCount(r[i].data) == RowCount(t[i].data)
    ensures forall i :: 0 <= i < |t| && t[i].name in ids ==> r[i] == t[i]
    ensures forall i :: 0 <= i < |t| && t[i].data.Other? ==> r[i] == t[i]
    ensures forall i, k :: 0 <= i < |t| && t[i].data.Text? && t[i].name !in ids && 0 <= k < |t[i].data.cells| ==>
      r[i].data.Text? && |r[i].data.cells| == |t[i].data.cells| && r[i].data.cells[k] == NormalizeCell(t[i].data.cells[k])
  {
    seq(|t|, i requires 0 <= i < |t| => CleanColumn(t[i], ids))
  }

  /** One step of a column-by-column cleaning pass: with the first `k`
      columns cleaned, cleaning column `k` extends the cleaned prefix. */
  lemma CleanPrefixStep(t: Table, ids: seq<string>, k: nat)
    requires k < |t|
    ensures (CleanTable(t, ids)[..k] + t[k..])[k] == t[k]
    ensures (CleanTable(t, ids)[..k] + t[k..])[k := CleanColumn(t[k], ids)] ==
            CleanTable(t, ids)[..k + 1] + t[k + 1..]
  {
    var a := CleanTable(t, ids)[..k] + t[k..];
    var b := CleanTable(t, ids)[..k + 1] + t[k + 1..];
    assert |a[k := CleanColumn(t[k], ids)]| == |b|;
    forall i | 0 <= i < |b|
      ensures a[k := CleanColumn(t[k], ids)][i] == b[i]
    {
    }
  }

  /** A pass that has cleaned every column has cleaned the table. */
  lemma CleanPrefixDone(t: Table, ids: seq<string>)
    ensures CleanTable(t, ids)[..|t|] + t[|t|..] == CleanTable(t, ids)
  {
    assert t[|t|..] == [];
  }

  /** Cleaning keeps a table well formed. */
  lemma CleanTableWellFormed(t: Table, ids: seq<string>)
    requires WellFormed(t)
    ensures WellFormed(CleanTable(t, ids))
  {
  }

  /** Cleaning twice is cleaning once. */
  lemma CleanTableIdempotent(t: Table, ids: seq<string>)
    ensures CleanTable(CleanTable(t, ids), ids) == CleanTable(t, ids)
  {
    var once := CleanTable(t, ids);
    var twice := CleanTable(once, ids);
    forall i | 0 <= i < |t|
      ensures twice[i] == once[i]
    {
      if once[i].data.Text? && once[i].name !in ids {
        var a, b := once[i].data.cells, twice[i].data.cells;
        assert |a| == |b|;
        forall k | 0 <= k < |a|
          ensures b[k] == a[k]
        {
          assert a[k] == NormalizeCell(t[i].data.cells[k]);
          if a[k].Some? {
            NormalizeIdempotent(t[i].data.cells[k].value);
          }
        }
        assert a == b;
      }
    }
  }

  /** `.str.replace(pattern, '').str.strip()` on a textual column's cells:
      nulls stay null at their positions, and every string becomes the
      matcher's output with whitespace removed from both ends. */
  function RemovePatternCells(cells: seq<Option<string>>, removeMatches: string -> string): (r: seq<Option<string>>)
    ensures |r| == |cells|
    ensures forall k :: 0 <= k < |cells| ==> (r[k].None? <==> cells[k].None?)
    ensures forall k :: 0 <= k < |cells| && r[k].Some? ==> IsStripped(r[k].value)
    ensures forall k :: 0 <= k < |cells| && cells[k].Some? ==> r[k] == Some(Strip(removeMatches(cells[k].value)))
  {
    seq(|cells|, k requires 0 <= k < |cells| =>
      match cells[k]
      case None => None
      case Some(s) => Some(Strip(removeMatches(s))))
  }
}
