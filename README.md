# ASD_ADAR_Correction: the extended variants table, in Dafny

This project models the part of ASD_ADAR_Correction that builds the
**extended variants table**. Several variant databases are merged into one
table, keyed by `chr`, `pos`, `ref` and `alt`:

- A row is added for each variant that a database brings in for the first time.
- Each database gets a 0/1 indicator column, set to 1 on the variants it holds.
- The new variants of a database pass through the database's annotation
  steps before they are appended.
- Validation databases add a 0/1 column marking the table rows whose key they
  contain.

The modelled pieces:

- `ExtendedTable` (extended_table.py): construction, database registration,
  `merge_db`, `merge_all_dbs`, `validate_table`, the basic table and the
  column ordering.
- The default hg38 validation database (its `instructions.py`): `validate`,
  `run_validation`, the instructions dict and the naming of `upload_vcf`.
- The VEP annotation steps of the hg37 and hg38 variants databases
  (`annotations_func.py`), covering:
  - parsing the VEP output;
  - the `Extra` key=value column;
  - key normalisation;
  - the inner merge back into the caller's rows;
  - the ADAR/APOBEC predicates.
- The hg37 `pre_process.py`: `pre_process` and `lift_over`.
- `2nd_run.py`: the reference-sequence column, the strand-aware ADAR/APOBEC
  flags and the database hit count.

A pandas frame is modelled in two forms:

- `Frames.Frame` is a value: an ordered list of column names plus rows, each
  row a map from column to `Cell`. A `Cell` is `Null` (NaN/None/pd.NA),
  `Str`, `Int` or `Bool`.
- `Frames.DataFrame` is a class over that value, for the frames the source
  changes in place. Each of its methods is proved to leave
  `Snapshot() == F(old(Snapshot()), …)`, where `F` is a pure function, and the
  properties are proved about `F`.

Exceptions are values of `Wrappers.Error`. An operation that raises partway
leaves the frame as far as it had got, and the model says so.

The environment enters as parameters:

- a database's file contents (`raw`);
- the outcome of the VEP wrapper and of the liftOver script (`VepRun`,
  `LiftRun`);
- whether the FASTA file opens, and a `Fetch` function for its sequences.

Modules, one per source file or shared concept:

| module | file | models |
|---|---|---|
| `Wrappers` | wrappers.dfy | `Option`, `Result`, the Python exceptions raised |
| `Text` | text.dfy | `str.split`/`join`, `strip`, `lstrip(chars)`, `replace`, `upper`/`lower` (ASCII), `int(str)`/`str(int)` |
| `Dicts` | dicts.dfy | `dict(pairs)` (last value wins), `dict.fromkeys` |
| `Columns` | columns.dfy | `Index.union`, filtering names, `_order_with_keys_first` |
| `Frames` | frames.dfy | frames, column assignment, `loc` with a mask, `reindex`, `concat`, inner and left merges |
| `Casts` | casts.dfy | `astype(str)` and `astype(int)` on cells |
| `Sources` | sources.dfy | the database objects the engine uses (name, kind, key columns, `df`, upload, pre-process, steps) |
| `Validation` | validation.dfy | hg38 validation `instructions.py` |
| `ExtendedTables` | extended_table.dfy | extended_table.py |
| `Vep` | vep.dfy | what both `annotations_func.py` share: VEP parsing, `get_from_extra`, key normalisation, the fixability predicates |
| `Hg37Annotations` | hg37_annotations.dfy | hg37 `vep_annotations` |
| `Hg38Annotations` | hg38_annotations.dfy | hg38 `vep_annotations` and the `Extra` pivot |
| `SecondRun` | second_run.dfy | 2nd_run.py |
| `Hg37PreProcess` | pre_process.dfy | hg37 `pre_process.py` |

Where the code does something other than what its comments or docstrings
say, the model follows the code:

- `table.empty` also holds for a table with rows but no columns.
- `validator` is bound twice in the validation dict, and the second binding
  (`run_validation`) is the one in effect.
- The hg38 pivot keeps the *first* value of a repeated tag, whereas
  `get_from_extra` keeps the *last*.
- hg37 `vep_annotations` raises `ZeroDivisionError` when either side has no
  rows.
- In `lift_over`, a missing script or chain file, or a failed run, is only
  printed. The code then fails on the unbound `result_path`.

## Model

| member | source | states |
|---|---|---|
| `ExtendedTables.ExtendedTable.constructor` | extended_variants_table/extended_table.py:7-13 | The table starts empty; key columns, database lists and annotation-step names are as given. |
| `ExtendedTables.ExtendedTable.CreateBasicTable` | extended_variants_table/extended_table.py:33-49 | The table becomes a fresh zero-row frame. Its columns are the keys, then the variants databases' names, then the validation databases' names, without repeats and in first-occurrence order. The database lists are unchanged. |
| `ExtendedTables.ExtendedTable.RegisterDb` | extended_variants_table/extended_table.py:53-64 | A variants database is appended to the variants list and a validation database to the validation list. Any other object raises `ValueError("Unsupported database type.")` and changes neither list. |
| `ExtendedTables.ExtendedTable.MergeDb` | extended_variants_table/extended_table.py:66-146 | A non-variants database raises `ValueError` and changes nothing. Otherwise the database is loaded if it has no frame, then pre-processed. The table becomes exactly `MergeEffect` of the old table and the loaded frame, the exception is the one `MergeEffect` reports, and the database's frame is released only when the merge completes. |
| `ExtendedTables.ExtendedTable.MergeLoaded` | extended_variants_table/extended_table.py:90-142 | Once the source frame is loaded, the table becomes exactly `MergeEffect` of the old table and that frame, and the exception is the one `MergeEffect` reports. |
| `ExtendedTables.ExtendedTable.PrepareTable` | extended_variants_table/extended_table.py:90-95 | The table becomes `Prepare(old table)`: the basic table if the old one is empty, then the indicator column filled with 0 if it is absent. |
| `ExtendedTables.ExtendedTable.MergeBatch` | extended_variants_table/extended_table.py:107-142 | The table becomes `AfterCompare`: existing rows are marked, the new rows are annotated and appended. A failing step stops it with the table marked and nothing appended. |
| `ExtendedTables.ExtendedTable.MergeAllDbs` | extended_variants_table/extended_table.py:148-154 | The table and the exception are exactly `MergeAll`: `MergeEffect` folded over the variants databases in list order from the old table, each on its loaded and pre-processed frame, stopping at the first exception. On success every variants database has released its frame. On an exception at database `i` (`FailedAt`): the databases before it, other than it, have released their frames; database `i` holds what `merge_db` left in it (its loaded and pre-processed frame, or its old frame when it is not a variants database); every later database not met before keeps its frame. The lists are unchanged. |
| `ExtendedTables.ExtendedTable.MergeNext` | extended_variants_table/extended_table.py:152-154 | One iteration keeps the loop invariant: the remaining fold from the current table equals the whole fold from the first table, the databases merged so far have released their frames (`Pending`), and the later databases not met yet keep their first frames (`Untouched`). An exception ends the loop with the table and the exception that `MergeAll` gives, and with the frames `FailedAt` describes. |
| `ExtendedTables.ExtendedTable.MergeStep` | extended_variants_table/extended_table.py:152-154 | Merging one database advances `MergeAll` by one database, or ends it with that database's exception. On success the database was a variants database and has released its frame. On an exception it holds its loaded frame, or its old frame when it is not a variants database. |
| `ExtendedTables.PendingAfterRelease` | extended_variants_table/extended_table.py:144-153 | Once database `i` releases its frame, the merge carries on from `i + 1` with the same frames: a later occurrence of that database is loaded from its upload either way. |
| `ExtendedTables.UntouchedAfterStep` | extended_variants_table/extended_table.py:152-153 | Merging database `i` changes no other database's frame, so the later databases not met yet keep their first frames. |
| `ExtendedTables.FailedAtStep` | extended_variants_table/extended_table.py:148-154 | When `merge_db` fails on database `i` and every earlier database was a variants database, the frames are exactly those `FailedAt` describes. |
| `ExtendedTables.MergeAllKeepsKeysUnique` | extended_variants_table/extended_table.py:148-154 | Over the whole loop (without annotation steps), a table whose keys do not repeat still has no repeated key, given repeat-free database frames. |
| `ExtendedTables.ExtendedTable.ValidateTable` | extended_variants_table/extended_table.py:174-181 | The table and the exception are exactly `ValidateAll`: `ValidateEffect` folded over the validation databases in order from the old table, stopping at the first exception. No column is lost, and on success every validation database has its column in the table. |
| `ExtendedTables.ValidateAllKeepsOtherCells` | extended_variants_table/extended_table.py:174-181 | The validation pass keeps the row count and every cell outside the validation databases' columns. |
| `ExtendedTables.ApplySteps` | extended_variants_table/extended_table.py:124-128 | The step loop gives exactly `RunSteps`. Each step gets the current batch; a returned frame replaces the batch and `None` keeps the batch as changed in place. An unknown name raises `KeyError`, and a step's exception stops the loop. |
| `ExtendedTables.Prepare` | extended_variants_table/extended_table.py:90-95 | An empty table becomes the basic columns (plus the indicator) with no rows. A non-empty table keeps its rows and every cell outside the indicator; the indicator keeps its old values, or is 0 where it is new. |
| `ExtendedTables.Compare` | extended_variants_table/extended_table.py:98-104 | The comparison succeeds exactly when three conditions hold: the database frame has all its key columns, the table has all the engine's keys, and every engine key is among the database's key columns. It then works on the projection of the database frame on its key columns. |
| `ExtendedTables.Fresh` | extended_variants_table/extended_table.py:107-108 | The `left_only` rows are exactly the database rows whose key tuple the table lacks, and there are no more of them than database rows. |
| `ExtendedTables.MergeKeepsExistingRows` | extended_variants_table/extended_table.py:113-116 | After a completed merge, each old row is still at its position with every non-indicator cell unchanged. Its indicator is 1 when its key occurs in the database; otherwise it keeps its old value, or 0 if the column is new. |
| `ExtendedTables.MergeRowAccounting` | extended_variants_table/extended_table.py:130-142 | The merged table has the prepared rows followed by the annotated batch: its row count is the sum of the two, and every batch cell sits at its shifted position. |
| `ExtendedTables.MergeColumns` | extended_variants_table/extended_table.py:130-137 | The merged columns start with the keys, have no repeats, and are exactly the keys, the table's columns and the batch's columns. |
| `ExtendedTables.MergeUnfolds` | extended_variants_table/extended_table.py:98-142 | A completed merge passed the comparison and every step, and its table is the reconciliation of the marked table with the annotated batch. |
| `ExtendedTables.AppendedKeysAreNewKeys` | extended_variants_table/extended_table.py:107-108 | Without annotation steps, the appended rows carry exactly the database's keys minus the table's keys. |
| `ExtendedTables.NewRowsMarked` | extended_variants_table/extended_table.py:119 | Without annotation steps, each appended row has 1 in the database's indicator and Null in every column outside the database's key columns, including the other databases' indicators. |
| `ExtendedTables.MergeKeepsKeysUnique` | extended_variants_table/extended_table.py:98-142 | If the table's keys and the database's keys are each repeat-free, the merged table's keys are repeat-free, without annotation steps. |
| `ExtendedTables.RemergeAddsNoRows` | extended_variants_table/extended_table.py:107-142 | Merging a database whose keys the table already holds adds no row; only indicators change. |
| `ExtendedTables.NewBatchKeys` | extended_variants_table/extended_table.py:108-119 | The new batch's key set is the database's keys minus the table's keys. |
| `ExtendedTables.NewBatchCells` | extended_variants_table/extended_table.py:119 | Every row of the new batch holds 1 in the indicator and Null in columns the database projection lacks. |
| `ExtendedTables.ReconcileKeepsCells` | extended_variants_table/extended_table.py:136-142 | Reindexing and concatenation keep every cell of both frames: old rows first, batch rows after. |
| `ExtendedTables.ReconcileTailKeys` | extended_variants_table/extended_table.py:142 | The appended part of the concatenation carries exactly the batch's key tuples. |
| `ExtendedTables.ProjectionKeepsKeys` | extended_variants_table/extended_table.py:99 | Projecting the database frame on its key columns keeps every row's key tuple and the set of keys. |
| `ExtendedTables.PrepareKeepsKeys` | extended_variants_table/extended_table.py:94-95 | Adding the indicator column keeps every row's key tuple. |
| `ExtendedTables.MarkKeepsKeys` | extended_variants_table/extended_table.py:116 | Setting indicator cells keeps every row's key tuple. |
| `ExtendedTables.FreshKeepsKeysUnique` | extended_variants_table/extended_table.py:108 | The `left_only` rows have repeat-free keys. |
| `ExtendedTables.NewBatchKeysUnique` | extended_variants_table/extended_table.py:108-119 | The batch's keys are repeat-free and none of them is already in the table. |
| `ExtendedTables.MarkedKeysUnique` | extended_variants_table/extended_table.py:113-116 | Marking keeps the table's keys repeat-free. |
| `ExtendedTables.ReconcileKeepsKeysUnique` | extended_variants_table/extended_table.py:136-142 | Appending a batch with new, repeat-free keys to a table with repeat-free keys keeps them repeat-free. |
| `ExtendedTables.SaveFormat` | extended_variants_table/extended_table.py:158-172 | "csv", "xlsx" and "tsv" select their writers one-to-one; any other format raises `ValueError`. |
| `ExtendedTables.Names` | extended_variants_table/extended_table.py:41-42 | The list of database names has one entry per database, in order. |
| `Columns.KeysFirst` | extended_variants_table/extended_table.py:22-30 | `_order_with_keys_first` puts the keys first, keeps every other column after them in its original order, and yields no repeats when neither input repeats. |
| `Columns.UnionContents` | extended_variants_table/extended_table.py:130 | `Index.union` contains exactly the names of both indexes and has no repeats. When both are non-empty and differ, it is sorted. |
| `Columns.UnionSymmetric` | extended_variants_table/extended_table.py:130 | `Index.union` of two repeat-free column lists does not depend on argument order. |
| `Columns.WithoutKeepsOrder` | extended_variants_table/extended_table.py:30 | Filtering out the keys keeps the relative order of the remaining columns: each non-key column lands at the count of non-key columns before it. |
| `Columns.Sort` | extended_variants_table/extended_table.py:130 | The sorted union is sorted, has the same elements and the same length. |
| `Dicts.FromKeys` | extended_variants_table/extended_table.py:46 | `dict.fromkeys` keeps each name once, loses none and never grows the list. |
| `Dicts.FromKeysInOrder` | extended_variants_table/extended_table.py:46 | The kept names are in the order of their first occurrences in the input. |
| `Dicts.FirstIndexOfPrefix` | extended_variants_table/extended_table.py:46 | A name found in a prefix first occurs at the same position in the whole list. |
| `Dicts.FromKeysKeepsDistinctPrefix` | extended_variants_table/extended_table.py:44-46 | A repeat-free prefix (the key columns) stays in place at the head. |
| `Frames.DataFrame.AssignColumn` | extended_variants_table/2nd_run.py:119 | `df[c] = values`: the frame becomes `Assign`, which appends the column if new, stores the values row by row and keeps every other cell. |
| `Frames.DataFrame.SetWhere` | extended_variants_table/extended_table.py:116 | `df.loc[mask, c] = v`: the frame becomes `LocSet`, with the same columns and row count. |
| `Frames.AssignKeepsOtherColumns` | extended_variants_table/2nd_run.py:119 | Assigning one column leaves every other column's cells as they were. |
| `Frames.Select` | resources/DBs/hg37/variants/default/pre_process.py:19 | `df[cols]` succeeds exactly when every column exists and then is the reindex; otherwise it raises `KeyError` listing the missing columns. |
| `Frames.JoinRowsCount` | resources/DBs/hg37/variants/default/annotations_func.py:114-119 | An inner merge yields one row per pair of matching rows. |
| `Frames.UnmatchedRowDropped` | resources/DBs/hg37/variants/default/annotations_func.py:113-119 | A left row without a match contributes nothing to an inner merge. |
| `Frames.InnerJoinCount` | resources/DBs/hg38/variants/default/annotations_func.py:149 | An inner merge has one row per matching pair of a left row and a right row. |
| `Frames.IndicatorOfUniqueKeys` | resources/DBs/hg38/validation/default/instructions.py:30-32 | When the right side's keys do not repeat, the left merge's indicator is the key-presence mask of the left rows. |
| `Frames.InnerJoinWellFormed` | resources/DBs/hg38/variants/default/annotations_func.py:149 | A successful inner merge yields a rectangular frame with unique column names. |
| `Sources.SourceDb.UploadDb` | extended_variants_table/extended_table.py:79-80 | Loading the database sets its frame to the file's contents. |
| `Sources.SourceDb.PreProcess` | extended_variants_table/extended_table.py:83 | Pre-processing replaces the frame with the pre-processor's result. |
| `Validation.ValidateEffect` | resources/DBs/hg38/validation/default/instructions.py:6-36 | `validate` completes exactly when the table and the database frame have every key column. The first missing table key raises `ValueError("Missing required column: …")` naming it, before anything changes. After the 0-fill, a database that is not loaded raises `TypeError`, and key columns missing from the database raise `KeyError` listing them. Otherwise the indicator column exists afterwards, no column is lost, and the frame is exactly `ValidatedAsWritten`: 0 everywhere, then 1 from the merge indicator read by position. When the database keys do not repeat, the result is the key-presence marking `Validated`. |
| `Validation.ValidateKeepsOtherCells` | resources/DBs/hg38/validation/default/instructions.py:25-32 | `validate` keeps the row count and every cell outside the database's own column. |
| `Validation.Validate` | resources/DBs/hg38/validation/default/instructions.py:6-36 | The caller's frame becomes `ValidateEffect`'s frame, the same object is returned, and the exception is the one `ValidateEffect` reports. The mask is the positional reading of the left-merge indicator. |
| `Validation.RunValidation` | resources/DBs/hg38/validation/default/instructions.py:70-87 | The database is loaded and pre-processed, then `validate` runs on the caller's frame. |
| `Validation.ValidatedMarksPresentKeys` | resources/DBs/hg38/validation/default/instructions.py:25-32 | The column named after the database holds 1 exactly on the rows whose key occurs in the database and 0 elsewhere, and no other cell changes. |
| `Validation.AsWrittenAgreesWhenUnique` | resources/DBs/hg38/validation/default/instructions.py:30-32 | When the database's keys do not repeat, the as-written positional mask marks the same rows as the key-presence mask. |
| `Validation.AsWrittenMismarks` | resources/DBs/hg38/validation/default/instructions.py:30-32 | As written, a database holding key A twice marks row B of the table [A, B], though B is not in the database. |
| `Validation.ValidateIdempotent` | resources/DBs/hg38/validation/default/instructions.py:27-32 | Running the as-written pass twice leaves the same table as running it once. |
| `Validation.ValidatedIdempotent` | resources/DBs/hg38/validation/default/instructions.py:27-32 | Running the corrected pass twice leaves the same table as running it once. |
| `Validation.RefillIsFill` | resources/DBs/hg38/validation/default/instructions.py:27 | `df[name] = 0` undoes any earlier 1s. |
| `Validation.FirstMissing` | resources/DBs/hg38/validation/default/instructions.py:17-20 | The first required column that is absent is reported, or none when all are present. |
| `Validation.EffectiveInstructions` | resources/DBs/hg38/validation/default/instructions.py:88-95 | The dict has five keys, `key_cols` is chr, pos, ref, alt, and the validator in effect is `run_validation`, the later binding. |
| `Validation.VcfColumnNamesValue` | resources/DBs/hg38/validation/default/instructions.py:50-52 | `upload_vcf` names the columns chr, pos, id, ref, alt, qual, filter, info. |
| `Validation.DropMetaLines` | resources/DBs/hg38/validation/default/instructions.py:55-56 | Exactly the lines not starting with "##" are kept. |
| `Dicts.FromPairs` | resources/DBs/hg38/variants/default/annotations_func.py:60 | `dict(pairs)` has exactly the keys of the pairs, and each key maps to its last value. |
| `Vep.ExtraItems` | resources/DBs/hg38/variants/default/annotations_func.py:60 | Only items containing "=" are kept, each split at its first "=", so the key has no "=". |
| `Vep.ExtraItemsAppend` | resources/DBs/hg38/variants/default/annotations_func.py:60 | Parsing a concatenated item list is parsing each part and concatenating. |
| `Vep.ExtraItemsSplice` | resources/DBs/hg38/variants/default/annotations_func.py:60 | Wherever an item stands, it contributes its split at the first "=" if it holds "=", and nothing otherwise. |
| `Vep.ExtraPairsOfRender` | resources/DBs/hg38/variants/default/annotations_func.py:60 | Parsing a rendered `k1=v1;k2=v2…` string gives back the pairs, when keys have no "=" or ";" and values no ";". |
| `Vep.GetFromExtraOfRender` | resources/DBs/hg37/variants/default/annotations_func.py:55-61 | `get_from_extra` on a rendered string gives the last value written for the key, or NA when the key is absent. |
| `Vep.NaCell` | resources/DBs/hg37/variants/default/annotations_func.py:61 | An absent value is pd.NA (Null) and a present value is its text. |
| `Vep.MaxParts` | resources/DBs/hg38/variants/default/annotations_func.py:39 | The width of `str.split(":", expand=True)` is the largest number of parts of any row, and some row reaches it. |
| `Vep.SplitRow` | resources/DBs/hg38/variants/default/annotations_func.py:39-47 | A parsed row loses the variation column, gains chr/pos/ref/alt, and keeps every other cell. |
| `Vep.ParseVep` | resources/DBs/hg38/variants/default/annotations_func.py:38-47 | Parsing succeeds exactly when the widest split has four parts. The result has the thirteen other columns then the keys, one row per input row. |
| `Vep.ParsedColumnsShape` | resources/DBs/hg38/variants/default/annotations_func.py:44-47 | The parsed columns have no repeats and replace the variation column with the four keys. |
| `Vep.ParseVepWellFormed` | resources/DBs/hg38/variants/default/annotations_func.py:44-47 | A parsed VEP file is a rectangular frame. |
| `Vep.ParseVepOfJoined` | resources/DBs/hg38/variants/default/annotations_func.py:39-47 | Variation ids written `chr:pos:ref:alt` (no ":" inside) parse back to exactly those four keys. |
| `Vep.UpperMask` | resources/DBs/hg38/variants/default/annotations_func.py:158 | `df[c].str.upper() == s` raises `KeyError` for a missing column and `AttributeError` for a non-empty column without text. Otherwise a row's flag holds exactly when its cell is text whose upper case is `s`. |
| `Vep.BaseChangeMask` | resources/DBs/hg38/variants/default/annotations_func.py:158 | The ref side is evaluated before the alt side: a missing ref raises `KeyError(ref)`, a text-less ref `AttributeError`, then the same for alt. Otherwise each flag is the conjunction of the two comparisons. |
| `Vep.AdarFixable` | resources/DBs/hg38/variants/default/annotations_func.py:154-158 | `isADARFixable` succeeds exactly when ref and alt both exist and hold text. Otherwise it raises `KeyError` or `AttributeError`. On success it gives one flag per row. |
| `Vep.ApobecFixable` | resources/DBs/hg38/variants/default/annotations_func.py:161-165 | `isApoBecFixable` succeeds exactly when ref and alt both exist and hold text. Otherwise it raises `KeyError` or `AttributeError`. On success it gives one flag per row. |
| `Vep.AdarFixableCaseInsensitive` | resources/DBs/hg37/variants/default/annotations_func.py:135-139 | A row is ADAR fixable exactly when ref is G or g and alt is A or a. |
| `Vep.ApobecFixableCaseInsensitive` | resources/DBs/hg37/variants/default/annotations_func.py:142-146 | A row is APOBEC fixable exactly when ref is T or t and alt is C or c. |
| `Vep.FixableExclusive` | resources/DBs/hg38/variants/default/annotations_func.py:154-165 | No row is both ADAR and APOBEC fixable. |
| `Vep.NormaliseKeys` | resources/DBs/hg38/variants/default/annotations_func.py:140-142 | The key loop keeps the columns and row count. It raises `KeyError` naming a missing key exactly when one is missing. |
| `Vep.NormalisedKeysAreStripped` | resources/DBs/hg38/variants/default/annotations_func.py:141 | After a complete pass every key cell is text equal to its own strip. |
| `Vep.NormaliseKeepsOtherColumns` | resources/DBs/hg38/variants/default/annotations_func.py:140-142 | Non-key columns are untouched by the normalisation. |
| `Vep.NormaliseKeysWellFormed` | resources/DBs/hg38/variants/default/annotations_func.py:140-142 | Normalising keeps the frame rectangular. |
| `Vep.NormaliseKeysInPlace` | resources/DBs/hg38/variants/default/annotations_func.py:140-142 | The caller's frame becomes `NormaliseKeys` of the old frame, with its exception. |
| `Text.StripIdempotent` | resources/DBs/hg38/variants/default/annotations_func.py:141 | Stripping twice is stripping once. |
| `Text.JoinOfSplit` | resources/DBs/hg38/variants/default/annotations_func.py:60 | `sep.join(s.split(sep)) == s`. |
| `Text.SplitOfJoin` | resources/DBs/hg38/variants/default/annotations_func.py:39 | Splitting a join of separator-free parts gives the parts back. |
| `Hg37Annotations.ExtraColumn` | resources/DBs/hg37/variants/default/annotations_func.py:85-86 | The `apply` over `Extra` completes exactly when every `Extra` cell is text; a NaN raises `AttributeError`. It gives one cell per row. |
| `Hg37Annotations.AddExtrasShape` | resources/DBs/hg37/variants/default/annotations_func.py:81-87 | The extras loop adds the fourteen tag columns, drops `Extra`, and stores `get_from_extra(key, Extra)` in each row. |
| `Hg37Annotations.AddExtrasColumns` | resources/DBs/hg37/variants/default/annotations_func.py:81-87 | The tag columns are appended after the existing ones and `Extra` is dropped; the row count is unchanged. |
| `Hg37Annotations.AddExtrasCell` | resources/DBs/hg37/variants/default/annotations_func.py:85-86 | Each tag cell holds `get_from_extra(key, Extra)` of its row. Every row's Extra must be text. |
| `Hg37Annotations.AddExtrasKeeps` | resources/DBs/hg37/variants/default/annotations_func.py:85-87 | The other VEP columns are untouched by the extras loop. |
| `Hg37Annotations.VepAnnotations` | resources/DBs/hg37/variants/default/annotations_func.py:64-129 | The caller's frame becomes `VepEffect`, and the exception is the one `VepEffect` reports. |
| `Hg37Annotations.VepAnnotationsLeavesMerge` | resources/DBs/hg37/variants/default/annotations_func.py:113-131 | When only the keys are shared, a completed call leaves in the caller's frame exactly the inner merge of its normalised rows with the VEP rows: one row per matching pair, unmatched rows gone. |
| `Hg37Annotations.RefillIsMerge` | resources/DBs/hg37/variants/default/annotations_func.py:127-129 | Emptying the frame and assigning the merged columns one by one reproduces the merge when it starts with the frame's columns. |
| `Hg37Annotations.RefillColumns` | resources/DBs/hg37/variants/default/annotations_func.py:128-129 | After j column assignments the frame has the old columns, extended by the merged columns up to j. |
| `Hg37Annotations.RefillCells` | resources/DBs/hg37/variants/default/annotations_func.py:128-129 | After j column assignments each row holds the merged row's cells in the assigned columns. |
| `Hg37Annotations.RefillOfJoin` | resources/DBs/hg37/variants/default/annotations_func.py:114-129 | Refilling the emptied frame from its inner merge gives the merge, whose row count is the number of matching pairs. |
| `Hg37Annotations.MergeStartsWithLeft` | resources/DBs/hg37/variants/default/annotations_func.py:114-119 | With only the keys shared, the merge's columns begin with the caller's columns. |
| `Hg37Annotations.VepEffectUnfolds` | resources/DBs/hg37/variants/default/annotations_func.py:78-129 | A completed call parsed the file, normalised the keys, merged, and refilled from the merge. |
| `Hg38Annotations.FirstWithKey` | resources/DBs/hg38/variants/default/annotations_func.py:126-131 | `aggfunc="first"`: the value of the first item with that tag, present exactly when the tag occurs. |
| `Hg38Annotations.Tags` | resources/DBs/hg38/variants/default/annotations_func.py:120-132 | The pivot's columns are the tags of any row, sorted. |
| `Hg38Annotations.Pivot` | resources/DBs/hg38/variants/default/annotations_func.py:120-134 | The pivot and join succeed exactly when `Extra` exists, some tag exists and no tag clashes with a VEP column. A missing `Extra` raises `KeyError`. An `Extra` without any text in a non-empty frame raises `AttributeError`. No tag raises `KeyError('value')`. The result is the VEP columns without `Extra`, followed by the tags, with one row per VEP row. |
| `Hg38Annotations.TagsNeedText` | resources/DBs/hg38/variants/default/annotations_func.py:121-123 | A frame with a tag has some text `Extra`, so it passes the `.str` check. |
| `Hg38Annotations.PivotCells` | resources/DBs/hg38/variants/default/annotations_func.py:120-134 | Each tag cell is the row's first value for the tag, or NaN. Every other cell is as it was. |
| `Hg38Annotations.PivotWellFormed` | resources/DBs/hg38/variants/default/annotations_func.py:134 | The pivoted frame is rectangular with unique column names. |
| `Hg38Annotations.FirstAgreesWithLast` | resources/DBs/hg38/variants/default/annotations_func.py:60-61 | For tags that occur once, the pivot's value equals `get_from_extra`'s. |
| `Hg38Annotations.FirstDiffersFromLast` | resources/DBs/hg38/variants/default/annotations_func.py:60 | For any tag written twice, `k=a;k=b`, the pivot reads `a` (the first value) while `get_from_extra` reads `b` (the last). |
| `Hg38Annotations.VepAnnotations` | resources/DBs/hg38/variants/default/annotations_func.py:64-152 | The caller's frame becomes `Vep38Effect`'s frame, and the returned value or exception is `Vep38Effect`'s. |
| `Hg38Annotations.Vep38Unfolds` | resources/DBs/hg38/variants/default/annotations_func.py:86-152 | A completed call had the wrapper output, parsed and pivoted it, normalised the caller's keys in place, and returns the inner merge. |
| `Hg38Annotations.Vep38Completed` | resources/DBs/hg38/variants/default/annotations_func.py:137-152 | A completed call leaves the caller's frame with its keys normalised. It returns one row per matching pair of a normalised row and a VEP row. |
| `Hg38Annotations.Vep38CallerCells` | resources/DBs/hg38/variants/default/annotations_func.py:140-142 | After a completed call each of the caller's key cells is text equal to its own strip, and every other cell is as it was. |
| `Hg38Annotations.Vep38WellFormed` | resources/DBs/hg38/variants/default/annotations_func.py:140-152 | The caller's frame and the returned merge are rectangular with unique column names. |
| `Hg38Annotations.Vep38Outcome` | extended_variants_table/extended_table.py:124-128 | As an annotation step, hg38 `vep_annotations` raises exactly when the call does. Otherwise it returns the merge, which replaces the batch. |
| `Hg38Annotations.Vep38AsOnlyStep` | extended_variants_table/extended_table.py:124-128 | With `vep_annotations` as the only step, the batch appended by `merge_db` is the merge the call returns. |
| `SecondRun.CheckColumns` | extended_variants_table/2nd_run.py:29-33 | `check_columns` raises exactly when a column is missing. The message lists the missing columns in order, joined by ", ". |
| `SecondRun.MissingInOrder` | extended_variants_table/2nd_run.py:31 | The missing list is exactly the required columns that are absent, in their order. |
| `SecondRun.ChromNameIdempotent` | extended_variants_table/2nd_run.py:49 | The contig name is unchanged by a second normalisation or by an extra "chr" in front. |
| `SecondRun.LookupOneSpan` | extended_variants_table/2nd_run.py:47-51 | `_lookup_one` reads the half-open span [pos-1, pos-1+len(ref)) of the normalised contig, and its result is upper case. |
| `SecondRun.Lookups` | extended_variants_table/2nd_run.py:92-117 | All lookups succeed exactly when each site's does. The results are then the sites' sequences in row order. |
| `SecondRun.LookupsFirstFailure` | extended_variants_table/2nd_run.py:109-113 | The error reported is the first failing row's. |
| `SecondRun.ChunksPartition` | extended_variants_table/2nd_run.py:87-95 | Every row falls in exactly one chunk, chunk `i / chunk_size`. |
| `SecondRun.ChunksCover` | extended_variants_table/2nd_run.py:87 | `ceil(n / chunk_size)` chunks cover all n rows. |
| `SecondRun.GenomeRefColumn` | extended_variants_table/2nd_run.py:54-119 | An unknown genome version raises `ValueError`, and a completed column has one cell per row. |
| `SecondRun.GenomeRefCells` | extended_variants_table/2nd_run.py:81-119 | With valid inputs, the column completes exactly when every lookup succeeds and then holds each row's upper-cased reference span. Otherwise some failing row's `RuntimeError` is raised. |
| `SecondRun.LookupAll` | extended_variants_table/2nd_run.py:86-117 | The chunked loop into the results array gives exactly `Lookups`. |
| `SecondRun.AddGenomeRefColumn` | extended_variants_table/2nd_run.py:54-119 | On an exception the frame is unchanged. Otherwise the column named after the genome version is assigned `GenomeRefColumn`'s cells. |
| `SecondRun.IsAdarFixable` | extended_variants_table/2nd_run.py:122-129 | After the column check, `is_ADAR_fixable` holds each row's strand-aware flag. A failed check leaves the frame unchanged. |
| `SecondRun.IsApobecFixable` | extended_variants_table/2nd_run.py:131-138 | After the column check, `is_APOBEC_fixable` holds each row's strand-aware flag. A failed check leaves the frame unchanged. |
| `SecondRun.FlagsOfVariantRow` | extended_variants_table/2nd_run.py:126-137 | ADAR is (1, G>A) or (-1, C>T); APOBEC is (1, T>C) or (-1, A>G). Both are exact and case-sensitive. |
| `SecondRun.FlagsStrandSymmetric` | extended_variants_table/2nd_run.py:126-137 | For bases A, C, G, T, a change on strand 1 is flagged exactly when its complement on strand -1 is. |
| `SecondRun.FlagsExclusive` | extended_variants_table/2nd_run.py:126-137 | No row is both ADAR and APOBEC fixable. |
| `SecondRun.FlagsRefineVepPredicates` | extended_variants_table/2nd_run.py:122-138 | On strand 1, a row with a 2nd_run ADAR or APOBEC flag also passes the case-insensitive VEP predicate. A lower-case `g` ref is never ADAR-flagged, so the converse fails. |
| `SecondRun.NonNullCountBounds` | extended_variants_table/2nd_run.py:148 | The hit count is the number of databases with a non-null cell. It equals the number of databases exactly when all are present and 0 exactly when none is. |
| `SecondRun.DbsCount` | extended_variants_table/2nd_run.py:140-148 | After the column check, `dbs_count` holds each row's count of non-null database cells. A failed check leaves the frame unchanged. |
| `Casts.IntColumn` | extended_variants_table/2nd_run.py:82 | `astype(int)` succeeds exactly when every cell converts, and then gives each cell's integer. |
| `Casts.CellToIntOfText` | resources/DBs/hg37/variants/default/pre_process.py:16 | A position written as text converts back to the same integer. |
| `Text.ParseIntOfIntToString` | resources/DBs/hg37/variants/default/pre_process.py:69 | `int(str(n)) == n`. |
| `Text.LStripChars` | extended_variants_table/2nd_run.py:49 | `lstrip(chars)` removes a prefix made only of characters in `chars`, and leaves a result that is empty or starts outside `chars`. |
| `Hg37PreProcess.PreProcess` | resources/DBs/hg37/variants/default/pre_process.py:5-9 | `pre_process` returns its input. |
| `Hg37PreProcess.StartCells` | resources/DBs/hg37/variants/default/pre_process.py:16 | start = pos - 1 for every row. |
| `Hg37PreProcess.PrefixedChrColumn` | resources/DBs/hg37/variants/default/pre_process.py:18 | `'chr' + df['chr']` succeeds exactly when no cell is a number. Each name is prefixed and NaN stays NaN. |
| `Hg37PreProcess.MarkSpans` | resources/DBs/hg37/variants/default/pre_process.py:16-18 | A complete pass requires pos, ref and chr, and keeps the row count. |
| `Hg37PreProcess.MarkSpansCells` | resources/DBs/hg37/variants/default/pre_process.py:16-18 | After a complete pass start = pos - 1 and end = start + len(ref), so the span covers the reference bases. chr gets the prefix and every other column is unchanged. |
| `Hg37PreProcess.MarkSpansColumns` | resources/DBs/hg37/variants/default/pre_process.py:16-17 | A complete pass adds start and end and loses no column. |
| `Hg37PreProcess.MarkSpansInPlace` | resources/DBs/hg37/variants/default/pre_process.py:16-18 | The caller's frame becomes `MarkSpans`, and the exception is the one `MarkSpans` reports. |
| `Hg37PreProcess.SpanRows` | resources/DBs/hg37/variants/default/pre_process.py:19-24 | The copy has one row per frame row. |
| `Hg37PreProcess.Restore` | resources/DBs/hg37/variants/default/pre_process.py:68-73 | A lifted row comes back with exactly chr, pos, ref, alt. |
| `Hg37PreProcess.Restored` | resources/DBs/hg37/variants/default/pre_process.py:68-73 | The result has the columns chr, pos, ref, alt, in order, and one converted row per lifted row. |
| `Hg37PreProcess.LiftOver` | resources/DBs/hg37/variants/default/pre_process.py:11-73 | The caller's frame and the result (or exception) are `LiftOverEffect`'s. |
| `Hg37PreProcess.LiftOverShape` | resources/DBs/hg37/variants/default/pre_process.py:68-73 | A completed `lift_over` returns a rectangular frame with the four key columns. |
| `Hg37PreProcess.LiftOverRoundTrip` | resources/DBs/hg37/variants/default/pre_process.py:16-73 | With a liftOver that moves nothing, each row's pos, ref and alt come back unchanged, and so does chr when it does not contain "chr". |
| `Hg37PreProcess.IdentityLiftUnfolds` | resources/DBs/hg37/variants/default/pre_process.py:16-73 | With a liftOver that moves nothing, the result is the copied rows converted back. |
| `Hg37PreProcess.SpanRowAt` | resources/DBs/hg37/variants/default/pre_process.py:19-24 | Each copied row holds its frame row's chr as text, start and end as integers, and ref and alt. |

## Left out

- Reading and writing files: CSV, gzip, xlsx, temporary files, `os.remove`. A database's contents, the VEP output and the lifted rows enter as values.
- `subprocess` runs of the VEP wrapper and the liftOver script. They enter as a function of the rows written out, returning what the run came to.
- Printing and progress bars.
- The thread pool, worker count and per-thread FASTA handles of `add_genome_ref_column`. Lookups are modelled in row order, which is the order the source collects the results in.
- pyfaidx: opening the FASTA file is a boolean. Slicing a contig is a `Fetch` function that returns a sequence or fails (a `KeyError`/`FetchError`).
- Floating point:
  - `math.ceil(n / chunk_size)` is computed with integers;
  - the match percentages that hg37 `vep_annotations` prints are not modelled, except their `ZeroDivisionError`.
- pandas dtypes: a cell is `Null`, text, an integer or a boolean. NaN, None and pd.NA are one `Null`, and `read_csv` type inference is abstracted into the values given.
- `Sources.SourceDb`: the database classes (db.py) are not part of this model. Only the name, kind, key columns, loaded frame, upload, pre-process and named steps that the engine uses are modelled, and key column lists are taken to have no repeats.
- `ExtendedTables.MergeKeepsKeysUnique`, `NewRowsMarked`, `AppendedKeysAreNewKeys`, `RemergeAddsNoRows`: these are stated for a merge without annotation steps. Steps may return any frame, so nothing about keys holds for them in general.
- `Validation.ValidateEffect`: the merge of the whole database frame can also raise `MergeError` or add suffixed columns when non-key columns clash. Only the indicator is modelled.
- `upload_table`, `get_table`, `__clear_table` and `save_table`'s writers are I/O or trivial. Only the format selection is modelled.
- `upload_vep_results_file` and `upload_vcf` read files: only the column naming, the "##" filter and the split of `#Uploaded_variation` are modelled. A file without variants is taken to fail the split like one with the wrong number of parts.
- `Frames.InnerJoin`: a frame cannot hold a repeated column name. pandas raises `MergeError` only when suffixing repeats a name within one side's labels. A merge whose suffixed names repeat across the two sides (left [k, b], right [k, b, b_x]) returns the repeated names in pandas, but raises `MergeError` in the model. The `KeyError` lists every missing key, left side first. pandas checks the keys one pair at a time, the right side first, and names only the first key it misses. `Frames.InnerJoinWellFormed` and both `VepAnnotations` inherit this.
- `ExtendedTables.Compare`: its `KeyError` lists every key missing from the table, or every key missing from the database's key columns. pandas checks the `on` keys one pair at a time, the right side first, and names only the first key it misses.
- `Validation.ValidateEffect`: its `KeyError` lists every key missing from the database frame. pandas names only the first key it misses.
- `Vep.ParseVep`: on an all-NaN `#Uploaded_variation` column pandas raises `AttributeError` from `.str` before any split. The model gives the `ValueError` of a split that does not have four parts.
- `Text.ParseInt`: it accepts surrounding whitespace, an optional sign and ASCII decimal digits only. Python's `int()` also accepts a single "_" between digits, such as "1_000", which the model rejects.
- `Hg37Annotations.VepAnnotations`: the hg37 variants `instructions.py` (lines 19-23) registers `vep_annotations(vep_results_path, df)` as an annotation step. The engine calls every step with the new rows alone, so this registered step raises `TypeError` when it runs. The model describes the function called with both arguments, not the registered step.
- `Hg38Annotations.Pivot`: `explode` and `pivot_table` are modelled by their result on each row. A NaN `Extra` gives no tags, and an item without "=" is taken to raise `KeyError('value')` when no row has any "=".
- `Vep.StrAccessible`: pandas decides whether `.str` is allowed from the column's dtype. The model has no dtypes. It allows the accessor on an empty frame and on a column with at least one text cell, and refuses it otherwise (an all-NaN column read as floats, an integer or boolean column).
- `Text.Strip`, `Text.Upper`, `Text.Lower`: ASCII only. Unicode whitespace such as U+00A0 or U+3000 is not stripped, and case mappings that change the length of a string, such as "ß" to "SS", are not modelled.
- `Hg37Annotations.VepAnnotationsLeavesMerge`: it requires that the caller's columns and the VEP columns share only the keys. When they share more, the merge renames with suffixes and the refill leaves stale columns.
- `add_hg19_column` (hg37 `annotations_func.py`) runs bedtools per row and is not part of this model.
- The hg37 and hg38 variants `instructions.py` only register these functions and are not part of this model.
- `main` of 2nd_run.py: argument parsing and file I/O around the modelled column writers.
- The column checks at lines 27-30 and 59-61 of `lift_over` can never fail, because the columns were just selected or named. They are not modelled.
- `lift_over`: `.str.len()` on a column without any text raises `AttributeError` in pandas. The model gives NaN for each non-text cell, which then fails the integer conversion with `ValueError`.
- `Hg37PreProcess.LiftOverRoundTrip`: it is stated for chromosome names without "chr" inside, because `str.replace` removes every occurrence.

## Findings

| source | as written | input that shows it | evidently intended | confidence | as-written member | corrected member |
|---|---|---|---|---|---|---|
| resources/DBs/hg38/validation/default/instructions.py:30-32 | The `_merge` column of `df.merge(db.df, how='left')` has one entry per matching pair. It is read against `df`'s index 0..n-1, so the marks shift once a database key repeats. | Table keys [A, B], database keys [A, A]: the indicator is [both, both, left_only], so row B gets 1. | 1 exactly on the table rows whose key occurs in the database. | not executed | `Validation.AsWrittenMismarks` | `Validation.ValidatedMarksPresentKeys` |
