/** src/utils/preprocess.py: cleaning a list of DataFrames in place, and
    removing a pattern from one series. */
module Preprocess {
  import opened Wrappers
  import opened Strings
  import opened Frames

  /** The inner loop of `clean_data`: every column of one frame, in order,
      is replaced by its cleaned version. */
  method CleanFrame(df: DataFrame, idColumns: seq<string>)
    modifies df
    ensures df.columns == CleanTable(old(df.columns), idColumns)
  {
    ghost var start := df.columns;
    var k := 0;
    while k < |df.columns|
      invariant |df.columns| == |start|
      invariant 0 <= k <= |start|
      invariant df.columns == CleanTable(start, idColumns)[..k] + start[k..]
    {
      CleanPrefixStep(start, idColumns, k);
      df.columns := df.columns[k := CleanColumn(df.columns[k], idColumns)];
      k := k + 1;
    }
    CleanPrefixDone(start, idColumns);
  }

  /** The position of the first element of the list that is not a
      DataFrame (`null` here), or the list's length if every one is. */
  function FirstNonFrame(dfList: seq<DataFrame?>): (r: nat)
    ensures r <= |dfList|
    ensures forall j :: 0 <= j < r ==> dfList[j] != null
    ensures r < |dfList| ==> dfList[r] == null
  {
    if dfList == [] || dfList[0] == null then 0 else 1 + FirstNonFrame(dfList[1..])
  }

  /** The objects among the first `n` elements of the list. */
  function Prefix(dfList: seq<DataFrame?>, n: nat): set<DataFrame?>
    requires n <= |dfList|
  {
    set k | 0 <= k < n :: dfList[k]
  }

  /** A frame that is either untouched or already cleaned is cleaned by
      one more pass exactly when it is the frame being processed. */
  lemma CleanStep(was: Table, now: Table, ids: seq<string>, done: bool, current: bool)
    requires now == if done then CleanTable(was, ids) else was
    ensures (if current then CleanTable(now, ids) else now) ==
            (if done || current then CleanTable(was, ids) else was)
  {
    if current && done {
      CleanTableIdempotent(was, ids);
    }
  }

  /** `clean_data(df_list, id_columns)`: the frames are cleaned in list
      order, in place, with the one `id_columns` list protecting columns in
      every frame; on success the given list itself is returned. At the
      first element that is not a DataFrame the assertion fails, after the
      frames before it were already cleaned. A frame listed twice is
      cleaned twice, which leaves it as cleaning it once does. */
  method CleanData(dfList: seq<DataFrame?>, idColumns: seq<string>) returns (r: Result<seq<DataFrame?>, FrameError>)
    modifies set j | 0 <= j < |dfList| :: dfList[j]
    ensures r.Success? <==> FirstNonFrame(dfList) == |dfList|
    ensures r.Success? ==> r.value == dfList
    ensures r.Failure? ==> r.error == NotADataFrame(FirstNonFrame(dfList))
    ensures forall j :: 0 <= j < |dfList| && dfList[j] != null ==>
      dfList[j].columns ==
        if dfList[j] in Prefix(dfList, FirstNonFrame(dfList))
        then CleanTable(old(dfList[j].columns), idColumns)
        else old(dfList[j].columns)
  {
    var i := 0;
    while i < |dfList| && dfList[i] != null
      invariant 0 <= i <= |dfList|
      invariant forall k :: 0 <= k < i ==> dfList[k] != null
      invariant forall j :: 0 <= j < |dfList| && dfList[j] != null ==>
        dfList[j].columns ==
          if dfList[j] in Prefix(dfList, i)
          then CleanTable(old(dfList[j].columns), idColumns)
          else old(dfList[j].columns)
    {
      var df := dfList[i];
      label BeforeStep:
      CleanFrame(df, idColumns);
      assert Prefix(dfList, i + 1) == Prefix(dfList, i) + {df};
      forall j | 0 <= j < |dfList| && dfList[j] != null
        ensures dfList[j].columns ==
          if dfList[j] in Prefix(dfList, i + 1)
          then CleanTable(old(dfList[j].columns), idColumns)
          else old(dfList[j].columns)
      {
        CleanStep(old(dfList[j].columns), old@BeforeStep(dfList[j].columns), idColumns, dfList[j] in Prefix(dfList, i), dfList[j] == df);
      }
      i := i + 1;
    }
    assert i == FirstNonFrame(dfList);
    if i < |dfList| {
      r := Failure(NotADataFrame(i));
    } else {
      r := Success(dfList);
    }
  }

  /** `remove_pattern(series, pattern)`: a new series with every match of
      the pattern removed and the ends stripped. `removeMatches` stands
      for `str.replace(pattern, '')`. A series of dtype `object` succeeds;
      every other dtype is treated as one on which `.str` raises. */
  function RemovePattern(series: Column, removeMatches: string -> string): (r: Result<Column, FrameError>)
    ensures r.Success? <==> series.data.Text?
    ensures r.Failure? ==> r.error == NotTextColumn(series.name)
    ensures r.Success? ==>
      && r.value.name == series.name
      && r.value.data.Text?
      && |r.value.data.cells| == |series.data.cells|
      && (forall k :: 0 <= k < |series.data.cells| ==>
            (r.value.data.cells[k].None? <==> series.data.cells[k].None?))
      && (forall k :: 0 <= k < |series.data.cells| && r.value.data.cells[k].Some? ==>
            IsStripped(r.value.data.cells[k].value))
      && (forall k :: 0 <= k < |series.data.cells| && series.data.cells[k].Some? ==>
            r.value.data.cells[k] == Some(Strip(removeMatches(series.data.cells[k].value))))
  {
    match series.data
    case Text(cells) => Success(Column(series.name, Text(RemovePatternCells(cells, removeMatches))))
    case Other(_) => Failure(NotTextColumn(series.name))
  }
}
