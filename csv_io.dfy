/** src/utils/io.py: building the fuel thesaurus from the rows a CSV reader
    yields. Each row is the list of fields of one line. */
module CsvIo {
  import opened Wrappers
  import opened Strings

  /** The exceptions `csv_to_dict` lets escape. */
  datatype CsvError =
    | NoHeader             // StopIteration: `next(reader)` on a file with no rows
    | ShortRow(line: nat)  // IndexError: row `line` (0 is the header) has fewer than two fields

  /** Rows 1 to `n - 1`, the data rows the loop has reached, each have a
      first and a second field. */
  predicate DataRowsComplete(rows: seq<seq<string>>, n: nat) {
    forall k :: 1 <= k < n && k < |rows| ==> |rows[k]| >= 2
  }

  /** One more complete data row extends the complete prefix. */
  lemma RowsCompleteStep(rows: seq<seq<string>>, n: nat)
    requires 1 <= n < |rows| && DataRowsComplete(rows, n) && |rows[n]| >= 2
    ensures DataRowsComplete(rows, n + 1)
  {
  }

  /** The key a data row contributes: its first field, lowered and stripped. */
  function Key(row: seq<string>): string
    requires |row| >= 2
  {
    Normalize(row[0])
  }

  /** The value a data row contributes: its second field, lowered and stripped. */
  function Value(row: seq<string>): string
    requires |row| >= 2
  {
    Normalize(row[1])
  }

  /** A dictionary after `update({key: value})` has run for each entry of
      `entries` in order: a later entry overwrites an earlier one with the
      same key. */
  function Fold<K, V>(entries: seq<(K, V)>): (r: map<K, V>)
    ensures |r| <= |entries|
  {
    if entries == [] then map[]
    else
      var n := |entries|;
      UpdateSize(Fold(entries[..n - 1]), entries[n - 1].0, entries[n - 1].1);
      Fold(entries[..n - 1])[entries[n - 1].0 := entries[n - 1].1]
  }

  /** Folding one more entry is one more `update`. */
  lemma FoldSnoc<K, V>(entries: seq<(K, V)>, entry: (K, V))
    ensures Fold(entries + [entry]) == Fold(entries)[entry.0 := entry.1]
  {
    assert (entries + [entry])[..|entries|] == entries;
  }

  /** Every key of the dictionary comes from an entry, the last one with
      that key, and that entry supplies the value stored. */
  lemma {:induction false} FoldKeySource<K, V>(entries: seq<(K, V)>, key: K) returns (j: nat)
    requires key in Fold(entries)
    ensures j < |entries| && entries[j].0 == key && Fold(entries)[key] == entries[j].1
    ensures forall j' :: j < j' < |entries| ==> entries[j'].0 != key
  {
    var n := |entries|;
    var front := entries[..n - 1];
    if entries[n - 1].0 == key {
      j := n - 1;
    } else {
      j := FoldKeySource(front, key);
      assert front[j] == entries[j];
      forall j' | j < j' < n
        ensures entries[j'].0 != key
      {
        if j' < n - 1 {
          assert front[j'] == entries[j'];
        }
      }
    }
  }

  /** The key of every entry is in the dictionary. */
  lemma {:induction false} FoldHasKey<K, V>(entries: seq<(K, V)>, j: nat)
    requires j < |entries|
    ensures entries[j].0 in Fold(entries)
  {
    var n := |entries|;
    if j < n - 1 {
      var front := entries[..n - 1];
      FoldHasKey(front, j);
      assert front[j] == entries[j];
    }
  }

  /** The keys are exactly the keys of the entries. */
  lemma FoldKeys<K, V>(entries: seq<(K, V)>, key: K)
    ensures key in Fold(entries) <==> exists j :: 0 <= j < |entries| && entries[j].0 == key
  {
    if key in Fold(entries) {
      var j := FoldKeySource(entries, key);
    }
    forall j | 0 <= j < |entries| && entries[j].0 == key
      ensures key in Fold(entries)
    {
      FoldHasKey(entries, j);
    }
  }

  /** Last write wins: an entry whose key no later entry repeats supplies
      the value stored under that key. */
  lemma FoldLastWins<K, V>(entries: seq<(K, V)>, j: nat)
    requires j < |entries|
    requires forall j' :: j < j' < |entries| ==> entries[j'].0 != entries[j].0
    ensures entries[j].0 in Fold(entries) && Fold(entries)[entries[j].0] == entries[j].1
  {
    FoldHasKey(entries, j);
    var last := FoldKeySource(entries, entries[j].0);
    assert last == j;
  }

  /** Storing one entry adds at most one key. */
  lemma UpdateSize<K, V>(m: map<K, V>, key: K, value: V)
    ensures |m[key := value]| <= |m| + 1
  {
    assert m[key := value].Keys == m.Keys + {key};
    assert |m.Keys + {key}| <= |m.Keys| + 1;
  }

  /** The entries contributed by data rows 1 to `n - 1`, in order; row 0,
      the header, contributes none. */
  function Entries(rows: seq<seq<string>>, n: nat): (e: seq<(string, string)>)
    requires 1 <= n <= |rows| && DataRowsComplete(rows, n)
    ensures |e| == n - 1
  {
    seq(n - 1, j requires 0 <= j < n - 1 => (Key(rows[j + 1]), Value(rows[j + 1])))
  }

  /** Entry `j` is the key and value of data row `j + 1`. */
  lemma EntryAt(rows: seq<seq<string>>, n: nat, j: nat)
    requires 1 <= n <= |rows| && DataRowsComplete(rows, n) && j < n - 1
    ensures Entries(rows, n)[j] == (Key(rows[j + 1]), Value(rows[j + 1]))
  {
  }

  /** One more data row contributes one more entry at the end. */
  lemma EntriesStep(rows: seq<seq<string>>, n: nat)
    requires 1 <= n < |rows| && DataRowsComplete(rows, n + 1)
    ensures Entries(rows, n + 1) == Entries(rows, n) + [(Key(rows[n]), Value(rows[n]))]
  {
    var a, b := Entries(rows, n + 1), Entries(rows, n) + [(Key(rows[n]), Value(rows[n]))];
    forall j | 0 <= j < n
      ensures a[j] == b[j]
    {
    }
  }

  /** The dictionary `csv_to_dict` returns for rows whose data rows are all
      complete: at most one key per data row, and none for a header alone. */
  function CsvDict(rows: seq<seq<string>>): (r: map<string, string>)
    requires rows != [] && DataRowsComplete(rows, |rows|)
    ensures |r| <= |rows| - 1
    ensures |rows| == 1 ==> r == map[]
  {
    Fold(Entries(rows, |rows|))
  }

  /** The keys are exactly the normalised first fields of the data rows. */
  lemma DictKeys(rows: seq<seq<string>>, key: string)
    requires rows != [] && DataRowsComplete(rows, |rows|)
    ensures key in CsvDict(rows) <==> exists k :: 1 <= k < |rows| && Key(rows[k]) == key
  {
    var e := Entries(rows, |rows|);
    if key in CsvDict(rows) {
      var j := FoldKeySource(e, key);
      EntryAt(rows, |rows|, j);
      assert 1 <= j + 1 < |rows| && Key(rows[j + 1]) == key;
    }
    forall k | 1 <= k < |rows| && Key(rows[k]) == key
      ensures key in CsvDict(rows)
    {
      EntryAt(rows, |rows|, k - 1);
      FoldHasKey(e, k - 1);
    }
  }

  /** Last write wins: a data row whose key no later data row repeats
      supplies the value stored under that key. */
  lemma DictLastWins(rows: seq<seq<string>>, k: nat)
    requires rows != [] && DataRowsComplete(rows, |rows|)
    requires 1 <= k < |rows|
    requires forall j :: k < j < |rows| ==> Key(rows[j]) != Key(rows[k])
    ensures Key(rows[k]) in CsvDict(rows)
    ensures CsvDict(rows)[Key(rows[k])] == Value(rows[k])
  {
    LaterEntriesDiffer(rows, k);
    LastEntryWins(rows, k);
  }

  /** Data rows after row `k` whose keys differ from its key give entries
      after entry `k - 1` whose keys differ from its key. */
  lemma LaterEntriesDiffer(rows: seq<seq<string>>, k: nat)
    requires rows != [] && DataRowsComplete(rows, |rows|)
    requires 1 <= k < |rows|
    requires forall j :: k < j < |rows| ==> Key(rows[j]) != Key(rows[k])
    ensures forall j' :: k - 1 < j' < |rows| - 1 ==>
      Entries(rows, |rows|)[j'].0 != Entries(rows, |rows|)[k - 1].0
  {
    var e := Entries(rows, |rows|);
    forall j' | k - 1 < j' < |e|
      ensures e[j'].0 != e[k - 1].0
    {
      EntryAt(rows, |rows|, j');
      EntryAt(rows, |rows|, k - 1);
      assert Key(rows[j' + 1]) != Key(rows[k]);
    }
  }

  /** Entry `k - 1`, contributed by data row `k`, supplies the value stored
      under its key when no later entry repeats that key. */
  lemma LastEntryWins(rows: seq<seq<string>>, k: nat)
    requires rows != [] && DataRowsComplete(rows, |rows|)
    requires 1 <= k < |rows|
    requires forall j' :: k - 1 < j' < |rows| - 1 ==>
      Entries(rows, |rows|)[j'].0 != Entries(rows, |rows|)[k - 1].0
    ensures Key(rows[k]) in CsvDict(rows)
    ensures CsvDict(rows)[Key(rows[k])] == Value(rows[k])
  {
    FoldLastWins(Entries(rows, |rows|), k - 1);
    EntryAt(rows, |rows|, k - 1);
  }

  /** Every key and every value is lowered and stripped. */
  lemma DictNormalized(rows: seq<seq<string>>, key: string)
    requires rows != [] && DataRowsComplete(rows, |rows|)
    requires key in CsvDict(rows)
    ensures IsNormalized(key) && IsNormalized(CsvDict(rows)[key])
  {
    var e := Entries(rows, |rows|);
    var j := FoldKeySource(e, key);
    EntryAt(rows, |rows|, j);
  }

  /** The header row never contributes: two inputs that differ only in
      their first row give the same dictionary. */
  lemma DictIgnoresHeader(rows: seq<seq<string>>, other: seq<seq<string>>)
    requires rows != [] && DataRowsComplete(rows, |rows|)
    requires |rows| == |other| && forall k :: 1 <= k < |rows| ==> rows[k] == other[k]
    ensures DataRowsComplete(other, |other|)
    ensures CsvDict(rows) == CsvDict(other)
  {
    assert Entries(rows, |rows|) == Entries(other, |other|);
  }

  /** The position of the first short data row, or `|rows|` if there is none. */
  function FirstShortRow(rows: seq<seq<string>>, from: nat): (r: nat)
    requires from <= |rows|
    ensures from <= r <= |rows|
    ensures forall k :: from <= k < r ==> |rows[k]| >= 2
    ensures r < |rows| ==> |rows[r]| < 2
    decreases |rows| - from
  {
    if from == |rows| || |rows[from]| < 2 then from else FirstShortRow(rows, from + 1)
  }

  /** `csv_to_dict` on the rows of an already opened file: the first row is
      the header and is skipped, every other row adds its normalised first
      field as key and its normalised second field as value, later rows
      overwriting earlier ones; fields after the second are ignored. A file
      without rows raises at `next`, and the first data row with fewer than
      two fields raises at its indexing, discarding the dictionary. */
  method CsvToDict(rows: seq<seq<string>>) returns (r: Result<map<string, string>, CsvError>)
    ensures rows == [] ==> r == Failure(NoHeader)
    ensures rows != [] && FirstShortRow(rows, 1) < |rows| ==> r == Failure(ShortRow(FirstShortRow(rows, 1)))
    ensures r.Success? <==> rows != [] && DataRowsComplete(rows, |rows|)
    ensures r.Success? ==> r.value == CsvDict(rows)
    ensures |rows| == 1 ==> r == Success(map[])
  {
    if rows == [] {
      return Failure(NoHeader);
    }
    var csvDict: map<string, string> := map[];
    var i := 1;
    while i < |rows|
      invariant 1 <= i <= |rows|
      invariant DataRowsComplete(rows, i)
      invariant csvDict == Fold(Entries(rows, i))
    {
      var line := rows[i];
      if |line| < 2 {
        return Failure(ShortRow(i));
      }
      var key := Key(line);
      var value := Value(line);
      RowsCompleteStep(rows, i);
      EntriesStep(rows, i);
      FoldSnoc(Entries(rows, i), (key, value));
      csvDict := csvDict[key := value];
      i := i + 1;
    }
    r := Success(csvDict);
  }
}
