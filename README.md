# mapping-drz: data cleaning and thesaurus loading, modelled in Dafny

mapping-drz prepares three power-plant datasets for record linkage. This
project models the part of it that exists as code:

- the `Dataset` class of `src/data_class.py`. It holds one DataFrame and the
  label of its id column. `clean_data` lower-cases and strips every textual
  column except the id column, in place. `remove_pattern` deletes the
  matches of a pattern from one textual column and strips it.
- the free functions of `src/utils/preprocess.py`. `clean_data` does the same
  cleaning across a list of DataFrames, protecting a list of id labels;
  `remove_pattern` works on a single series.
- `csv_to_dict` of `src/utils/io.py`. It reads the fuel thesaurus: the header
  row is skipped, and every other row maps its normalised first field to its
  normalised second field. A later row overwrites an earlier one.

Modules, one per source file plus two shared ones:

| file | module | models |
|---|---|---|
| `wrappers.dfy` | `Wrappers` | `Option`, `Result`, `Outcome` |
| `strings.dfy` | `Strings` | `str.lower()`, `str.strip()` and their composition `Normalize` |
| `frames.dfy` | `Frames` | columns, tables, the mutable `DataFrame` object, and the cleaning and pattern-removal specifications shared by both source files |
| `preprocess.dfy` | `Preprocess` | `src/utils/preprocess.py` |
| `data_class.dfy` | `DataClass` | `src/data_class.py` |
| `csv_io.dfy` | `CsvIo` | `csv_to_dict` of `src/utils/io.py` |

How the model represents the source:

- A DataFrame is a sequence of named columns. A column's `ColumnData`
  constructor is its dtype: `Text` is dtype `object`, with string-or-null
  cells; `Other` is any other dtype. The cleaning loops skip `Other`
  columns, and both `remove_pattern`s fail on them.
- The regex replacement `str.replace(pattern, '')` is a function parameter,
  `removeMatches`.
- `preprocess.clean_data` takes a sequence of `DataFrame?`. A `null` element
  stands for an element that is not a DataFrame. The assertion fails there,
  after the frames before it have already been cleaned in place.
- A frame that appears in the list twice is cleaned twice. Cleaning is
  idempotent, so the second pass changes nothing.
- `Dataset` is a class. Its `df` field is reassigned column by column, just as
  `self.df[column] = ...` replaces one column at a time.
- `csv_to_dict` takes the rows the CSV reader yields, each row the list of its
  fields.
- The two exceptions `csv_to_dict` can raise are returned as a `Failure`:
  `StopIteration` on a file with no rows, and `IndexError` on a data row with
  fewer than two fields.

`Dataset.remove_pattern` does not consult `id_column`: a call on the id
column succeeds and rewrites it, as `DataClass.RemovePatternOnIdColumn` shows.

## Model

| member | source | states |
|---|---|---|
| Strings.Lower | src/data_class.py:35 | lowering one character: the result is never an upper-case ASCII letter; an upper-case letter becomes the matching lower-case one; anything else is kept |
| Strings.ToLower | src/utils/io.py:24 | `lower()` keeps the length, lowers each position, leaves no upper-case letter, and leaves an already lowered string unchanged |
| Strings.IsSpace | src/utils/io.py:24 | the characters `strip()` removes: tab, line feed, vertical tab, form feed, carriage return, 0x1C-0x1F, space, 0x85 and 0xA0 |
| Strings.Strip | src/utils/io.py:24 | `strip()` leaves neither end as whitespace |
| Strings.StripIsSlice | src/utils/io.py:24 | `strip()` returns a contiguous slice of its argument, and everything cut from either side is whitespace |
| Strings.Normalize | src/utils/io.py:24-25 | `lower().strip()` yields a string that is lowered and stripped |
| Strings.NormalizeFixedPoint | src/data_class.py:35 | a string already lowered and stripped is returned unchanged |
| Strings.NormalizeIdempotent | src/utils/preprocess.py:24 | normalising twice equals normalising once |
| Frames.DataFrame.constructor | src/utils/preprocess.py:16-24 | a DataFrame is a shared mutable object holding its columns; `preprocess.clean_data` changes it in place |
| Frames.IndexOf | src/data_class.py:41 | finds the first column with the given label when there is one; `None` exactly when no column has that label |
| Frames.NormalizeCell | src/data_class.py:35 | a null cell stays null; a string cell becomes lowered and stripped |
| Frames.CleanColumn | src/data_class.py:31-35 | a textual column not protected as an id is normalised cell by cell; a non-textual or protected column is unchanged; label, dtype and row count are kept |
| Frames.CleanTable | src/utils/preprocess.py:19-24 | a whole cleaning pass: same length, labels, dtypes and row counts; protected and non-textual columns unchanged; every other cell normalised |
| Frames.CleanTableWellFormed | src/data_class.py:30-35 | cleaning keeps labels unique and row counts equal |
| Frames.CleanTableIdempotent | src/utils/preprocess.py:16-24 | cleaning a cleaned table changes nothing |
| Frames.RemovePatternCells | src/utils/preprocess.py:39 | `.str.replace(pattern, '').str.strip()` keeps the length and the positions of nulls; each string becomes the stripped output of the matcher |
| Preprocess.CleanFrame | src/utils/preprocess.py:19-24 | the inner loop turns the frame's columns, in place, into `CleanTable` of its old columns |
| Preprocess.FirstNonFrame | src/utils/preprocess.py:16-17 | the position of the first element that fails `type(df)==pd.DataFrame`; every element before it is a frame |
| Preprocess.CleanData | src/utils/preprocess.py:6-26 | succeeds exactly when every element is a frame, and then returns the same list; otherwise fails with the position of the first non-frame; each frame before that position is cleaned once, however often it appears; every other frame is unchanged |
| Preprocess.RemovePattern | src/utils/preprocess.py:29-39 | succeeds exactly on a series of dtype `object` and fails with `NotTextColumn` otherwise; on success the label, length and null positions are kept, and each string is the stripped output of the matcher |
| DataClass.IdColumns | src/data_class.py:33 | the protected labels are exactly the given id column, and none when it is `None` |
| DataClass.RemovePatternIn | src/data_class.py:37-44 | succeeds exactly when the column exists and is textual; fails with `ColumnMissing` when no column has the label and with `NotTextColumn` when that column is not textual; on success only that column changes, to the pattern-removed cells |
| DataClass.RemovePatternInWellFormed | src/data_class.py:44 | removing a pattern keeps the table well formed |
| DataClass.RemovePatternOnIdColumn | src/data_class.py:37-44 | on a dataset whose id column is `id`, `remove_pattern("id", …)` with a matcher that removes nothing succeeds and strips the id cell ` 42` to `42` |
| DataClass.Dataset.constructor | src/data_class.py:7-19 | a dataset over an already loaded table with the given id column |
| DataClass.Dataset.CleanData | src/data_class.py:21-35 | `df` becomes `CleanTable` of the old `df`, protecting only the id column, and stays well formed |
| DataClass.Dataset.RemovePattern | src/data_class.py:37-44 | succeeds exactly when `RemovePatternIn` does, and then `df` is its result; on failure `df` is unchanged and the error is the one `RemovePatternIn` gives |
| CsvIo.Key | src/utils/io.py:24 | the key of a data row: `line[0].lower().strip()` |
| CsvIo.Value | src/utils/io.py:25 | the value of a data row: `line[1].lower().strip()` |
| CsvIo.Fold | src/utils/io.py:22-26 | the dictionary after `update({key: value})` for each entry in order, starting empty; it has at most as many keys as entries |
| CsvIo.FoldSnoc | src/utils/io.py:26 | one more `update({key: value})` stores one more entry |
| CsvIo.FoldKeySource | src/utils/io.py:22-26 | every key of the dictionary comes from some entry, namely the last entry with that key, and that entry supplies the stored value |
| CsvIo.FoldHasKey | src/utils/io.py:26 | the key of every entry is in the dictionary |
| CsvIo.FoldKeys | src/utils/io.py:22-26 | the keys are exactly the keys of the entries |
| CsvIo.FoldLastWins | src/utils/io.py:26 | an entry whose key no later entry repeats supplies the stored value |
| CsvIo.Entries | src/utils/io.py:23-25 | one entry per data row reached, the header excluded |
| CsvIo.EntryAt | src/utils/io.py:24-25 | entry `j` holds the normalised first and second fields of row `j + 1` |
| CsvIo.EntriesStep | src/utils/io.py:23-26 | one more data row appends exactly its entry |
| CsvIo.DictKeys | src/utils/io.py:21-26 | a string is a key exactly when it is the normalised first field of some data row |
| CsvIo.DictLastWins | src/utils/io.py:26 | a data row whose key no later data row repeats supplies the value stored under that key |
| CsvIo.LaterEntriesDiffer | src/utils/io.py:24 | later data rows with a different key give later entries with a different key |
| CsvIo.LastEntryWins | src/utils/io.py:23-26 | when no later entry repeats the key of data row `k`, that row's value is stored under its key |
| CsvIo.DictNormalized | src/utils/io.py:24-25 | every key and every value is lowered and stripped |
| CsvIo.DictIgnoresHeader | src/utils/io.py:21 | two inputs that differ only in their first row give the same dictionary |
| CsvIo.CsvDict | src/utils/io.py:22-27 | the dictionary returned: the fold of the data rows' entries, with at most one key per data row and no key when there are no data rows |
| CsvIo.FirstShortRow | src/utils/io.py:24-25 | the first row at or after the given position that has fewer than two fields; every row before it has at least two |
| CsvIo.CsvToDict | src/utils/io.py:13-27 | no rows: fails with `NoHeader`; a short data row: fails at the first one; succeeds exactly when every data row has two fields, and then returns `CsvDict`; a header alone gives the empty dictionary |

## Left out

- `src/mapping.py`: command-line parsing, path joining and printing; no core logic.
- `csv_to_pd`, and the file read in `Dataset.__init__`: file I/O. The constructor takes the already loaded table.
- Opening the file and tokenising CSV in `csv_to_dict`: I/O. The model starts from the reader's rows.
- `write_csv`: it only raises `NotImplementedError`.
- Regular-expression semantics of `str.replace(pattern, '')`: the matcher is the parameter `removeMatches`, about which nothing is assumed.
- Strings.Lower: lower-cases ASCII letters only, not the full Unicode case mapping of `str.lower()`.
- Strings.IsSpace: covers Python's whitespace among the first 256 code points, not the Unicode separators above them.
- pandas type details: dtype inference, and `.str` turning a non-string cell of an `object` column into NaN. Textual cells are strings or null; other dtypes are integers never read.
- Frames.DataFrame, Preprocess.CleanFrame: columns are addressed by position. This matches addressing by label only when labels are unique.
- `Dataset` without a data path: the source leaves `self.df` unset. The model always has a table.
- DataClass.Dataset: `df` is a value field, so another reference to the same pandas DataFrame would not see the in-place column updates.
- Preprocess.RemovePattern: `assert type(series)==pd.Series` is enforced by the parameter type rather than modelled as a failure.
- Preprocess.RemovePattern: pandas' `.str` also accepts `string` (StringDtype) series and categorical series of strings, on which `remove_pattern` succeeds; the model tags them `Other` and treats the call as failing. `Dataset.remove_pattern` rejects them through its `dtype==object` assertion, which the model matches.
- Preprocess.CleanData: only a `null` stands for an element that is not a DataFrame; an element of any other Python type is not represented.
- Concurrency, columns added or removed while iterating: the source is single-threaded and never does this.
