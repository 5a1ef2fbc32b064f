/** src/data_class.py: a dataset object holding one DataFrame and the label
    of its id column, cleaned in place. */
module DataClass {
  import opened Wrappers
  import opened Strings
  import opened Frames

  /** The labels `clean_data` protects: the id column, if one was given.
      A dataset without one (`id_column=None`) protects nothing, since no
      column label equals `None`. */
  function IdColumns(idColumn: Option<string>): (r: seq<string>)
    ensures forall name :: name in r <==> idColumn == Some(name)
  {
    match idColumn
    case None => []
    case Some(id) => [id]
  }

  /** What `remove_pattern(col_name, pattern)` does to the table: it fails
      when no column is labelled `col_name` or when that column is not
      textual; otherwise that one column's cells have the matches removed
      and their ends stripped, and every other column is kept. */
  function RemovePatternIn(t: Table, colName: string, removeMatches: string -> string): (r: Result<Table, FrameError>)
    ensures r.Success? <==> IndexOf(t, colName).Some? && t[IndexOf(t, colName).value].data.Text?
    ensures IndexOf(t, colName).None? ==> r == Failure(ColumnMissing(colName))
    ensures IndexOf(t, colName).Some? && t[IndexOf(t, colName).value].data.Other? ==>
      r == Failure(NotTextColumn(colName))
    ensures r.Success? ==>
      var i := IndexOf(t, colName).value;
      && t[i].data.Text?
      && |r.value| == |t|
      && (forall k :: 0 <= k < |t| && k != i ==> r.value[k] == t[k])
      && r.value[i] == Column(colName, Text(RemovePatternCells(t[i].data.cells, removeMatches)))
  {
    match IndexOf(t, colName)
    case None => Failure(ColumnMissing(colName))
    case Some(i) =>
      match t[i].data
      case Other(_) => Failure(NotTextColumn(colName))
      case Text(cells) => Success(t[i := Column(colName, Text(RemovePatternCells(cells, removeMatches)))])
  }

  /** Removing a pattern keeps a table well formed. */
  lemma RemovePatternInWellFormed(t: Table, colName: string, removeMatches: string -> string)
    requires WellFormed(t)
    requires RemovePatternIn(t, colName, removeMatches).Success?
    ensures WellFormed(RemovePatternIn(t, colName, removeMatches).value)
  {
    var r := RemovePatternIn(t, colName, removeMatches).value;
    var i := IndexOf(t, colName).value;
    forall k | 0 <= k < |r|
      ensures RowCount(r[k].data) == RowCount(r[0].data)
    {
      assert RowCount(r[k].data) == RowCount(t[k].data);
      assert RowCount(r[0].data) == RowCount(t[0].data);
    }
  }

  /** `remove_pattern` does not consult `id_column`: on a dataset whose id
      column is "id", a call on "id" succeeds and rewrites that column, here
      by stripping the leading space of " 42" with a pattern that matches
      nothing. */
  method RemovePatternOnIdColumn() returns (d: Dataset, r: Outcome<FrameError>)
    ensures d.idColumn == Some("id")
    ensures r == Pass && d.df == [Column("id", Text([Some("42")]))]
  {
    var t := [Column("id", Text([Some(" 42")]))];
    d := new Dataset(t, Some("id"));
    assert IndexOf(t, "id") == Some(0);
    assert Strip(" 42") == "42" by {
      assert IsSpace(" 42"[0]) && " 42"[1..] == "42";
      assert !IsSpace('4') && !IsSpace('2');
    }
    var cells := RemovePatternCells([Some(" 42")], s => s);
    assert cells == [Some("42")];
    r := d.RemovePattern("id", s => s);
  }

  class Dataset {
    /** `self.df`: the dataset's table. */
    var df: Table
    /** `self.id_column`: the label of the column `clean_data` leaves alone. */
    const idColumn: Option<string>

    ghost predicate Valid()
      reads this
    {
      WellFormed(df)
    }

    /** A dataset over a table already read from its file. */
    constructor (df: Table, idColumn: Option<string>)
      requires WellFormed(df)
      ensures Valid() && this.df == df && this.idColumn == idColumn
    {
      this.df := df;
      this.idColumn := idColumn;
    }

    /** `clean_data()`: each column in turn is replaced in place by its
        cleaned version, leaving the id column and non-textual columns as
        they were. */
    method CleanData()
      requires Valid()
      modifies this
      ensures Valid()
      ensures df == CleanTable(old(df), IdColumns(idColumn))
    {
      ghost var start := df;
      var ids := IdColumns(idColumn);
      var k := 0;
      while k < |df|
        invariant |df| == |start|
        invariant 0 <= k <= |start|
        invariant df == CleanTable(start, ids)[..k] + start[k..]
      {
        CleanPrefixStep(start, ids, k);
        df := df[k := CleanColumn(df[k], ids)];
        k := k + 1;
      }
      CleanPrefixDone(start, ids);
      CleanTableWellFormed(start, ids);
    }

    /** `remove_pattern(col_name, pattern)`, with `removeMatches` standing
        for `str.replace(pattern, '')`: on success the named column is
        replaced in place; when an assertion fails the table is unchanged. */
    method RemovePattern(colName: string, removeMatches: string -> string) returns (r: Outcome<FrameError>)
      requires Valid()
      modifies this
      ensures Valid()
      ensures r.Pass? <==> RemovePatternIn(old(df), colName, removeMatches).Success?
      ensures r.Pass? ==> df == RemovePatternIn(old(df), colName, removeMatches).value
      ensures r.Fail? ==> df == old(df) && r.error == RemovePatternIn(old(df), colName, removeMatches).error
    {
      var found := IndexOf(df, colName);
      if found.None? {
        return Fail(ColumnMissing(colName));
      }
      var i := found.value;
      if df[i].data.Other? {
        return Fail(NotTextColumn(colName));
      }
      RemovePatternInWellFormed(df, colName, removeMatches);
      df := df[i := Column(colName, Text(RemovePatternCells(df[i].data.cells, removeMatches)))];
      r := Pass;
    }
  }
}
