/**
 * The incremental merge engine of extended_table.py. One table, keyed on the
 * key columns, absorbs one variants database at a time:
 * - its rows are split into those whose key the table already has and new ones;
 * - existing table rows get 1 in the database's presence column;
 * - the new rows go through the configured annotation steps;
 * - both frames are reindexed to the union of their columns, key columns
 *   first, and the annotated new rows are appended.
 *
 * `MergeEffect` states what one `merge_db` call leaves in the table (and
 * which exception it raises); the `ExtendedTable` class does it step by step
 * on the table object, and the lemmas state what `MergeEffect` guarantees.
 */
module ExtendedTables {
  import opened Wrappers
  import opened Dicts
  import opened Columns
  import opened Frames
  import opened Sources
  import opened Validation

  // ----------------------------------------------------- the merge, as values

  /**
   * The table that the steps before the key comparison leave: the basic
   * table (the de-duplicated key and database names, no rows) if the table is
   * empty, and then the indicator column `name` added with 0 if absent.
   */
  function Prepare(t: Table, names: seq<string>, name: string): (p: Table)
    ensures Empty(t) ==> p.rows == [] && p.columns == (if name in FromKeys(names) then FromKeys(names) else FromKeys(names) + [name])
    ensures !Empty(t) ==> |p.rows| == |t.rows| && p.columns == (if name in t.columns then t.columns else t.columns + [name])
    ensures !Empty(t) ==> forall i, c :: 0 <= i < |t.rows| && c != name ==> Get(p.rows[i], c) == Get(t.rows[i], c)
    ensures !Empty(t) ==> forall i :: 0 <= i < |t.rows| ==>
              Get(p.rows[i], name) == if name in t.columns then Get(t.rows[i], name) else Int(0)
  {
    var b: Table := if Empty(t) then Frame(FromKeys(names), []) else t;
    if name in b.columns then b
    else
      AssignWellFormed(b, name, seq(|b.rows|, _ => Int(0)));
      forall i, c | 0 <= i < |b.rows| && c != name
        ensures Get(Fill(b, name, Int(0)).rows[i], c) == Get(b.rows[i], c)
      {
        AssignKeepsOtherColumns(b, name, seq(|b.rows|, _ => Int(0)), i, c);
      }
      Fill(b, name, Int(0))
  }

  /**
   * `db.df[db.key_cols]` merged with `self.table[self.key_cols]` on the
   * table's keys: a KeyError for a key column the database lacks, one the
   * table lacks, or a table key that is not among the database's keys;
   * otherwise the database's key-column projection.
   */
  function Compare(p: Frame, keys: seq<string>, dbdf: Frame, dbKeys: seq<string>): (r: Result<Frame>)
    ensures r.Ok? <==> (forall c :: c in dbKeys ==> c in dbdf.columns) && (forall c :: c in keys ==> c in p.columns)
                       && (forall c :: c in keys ==> c in dbKeys)
    ensures r.Ok? ==> r.value == Reindex(dbdf, dbKeys)
  {
    var sel :- Select(dbdf, dbKeys);
    if !(forall c :: c in keys ==> c in p.columns) then Err(KeyError(Without(keys, p.columns)))
    else if !(forall c :: c in keys ==> c in dbKeys) then Err(KeyError(Without(keys, dbKeys)))
    else Ok(sel)
  }

  /** The `left_only` rows of the comparison: source rows whose key the table lacks, in source order. */
  function Fresh(rows: seq<Row>, known: seq<Row>, keys: seq<string>): (r: seq<Row>)
    ensures |r| <= |rows|
    ensures forall x :: x in r <==> x in rows && KeyOf(x, keys) !in KeySet(known, keys)
  {
    if |rows| == 0 then []
    else
      var rest := Fresh(rows[1..], known, keys);
      assert forall x :: x in rows <==> x == rows[0] || x in rows[1..];
      if KeyOf(rows[0], keys) in KeySet(known, keys) then rest else [rows[0]] + rest
  }

  /** `new_df` with `new_df[name] = 1`: the new rows of the source projection, marked present. */
  function NewBatch(sel: Table, known: seq<Row>, keys: seq<string>, name: string): Table {
    var f := Frame(sel.columns, Fresh(sel.rows, known, keys));
    AssignWellFormed(f, name, seq(|f.rows|, _ => Int(1)));
    Fill(f, name, Int(1))
  }

  /** `self.table.loc[mask, name] = 1` for the table rows whose key occurs in the source. */
  function MarkExisting(p: Table, keys: seq<string>, sel: Frame, name: string): Table
    requires name in p.columns
  {
    LocSetWellFormed(p, KeyPresence(p.rows, keys, sel.rows), name, Int(1));
    LocSet(p, KeyPresence(p.rows, keys, sel.rows), name, Int(1))
  }

  /**
   * The annotation steps, in order: a name without a configured step raises a
   * KeyError, a step that raises stops the merge, a step returning None keeps
   * the batch it changed in place, and a returned frame replaces the batch.
   */
  function RunSteps(batch: Table, names: seq<string>, steps: map<string, Step>): Result<Table>
    decreases |names|
  {
    if |names| == 0 then Ok(batch)
    else if names[0] !in steps then Err(KeyError([names[0]]))
    else match steps[names[0]](batch)
      case Raised(e) => Err(e)
      case Done(mutated, returned) =>
        RunSteps(if returned.Some? then returned.value else mutated, names[1..], steps)
  }

  /** The column order after a merge: the keys, then the rest of `Index.union` of both column lists. */
  function MergedColumns(t: Frame, b: Frame, keys: seq<string>): seq<string> {
    OrderWithKeysFirst(keys, Union(t.columns, b.columns))
  }

  /** Both frames reindexed to the merged columns, then concatenated: old rows first. */
  function Reconcile(t: Table, b: Table, keys: KeyList): Table {
    var cols := MergedColumns(t, b, keys);
    UnionContents(t.columns, b.columns);
    KeysFirst(keys, Union(t.columns, b.columns));
    Concat(Reindex(t, cols), Reindex(b, cols))
  }

  /** The table after `merge_db` and the exception it raised, if any. */
  datatype Merged = Merged(table: Table, error: Option<Error>)

  /**
   * One `merge_db` of a variants database whose pre-processed frame is
   * `dbdf`. `names` are the key columns followed by the names of the
   * registered variants and validation databases. An exception leaves the
   * table as far as the merge had got.
   */
  function MergeEffect(t: Table, keys: KeyList, names: seq<string>, name: string, dbdf: Table, dbKeys: KeyList,
                       annFuncs: seq<string>, steps: map<string, Step>): Merged
  {
    var p := Prepare(t, names, name);
    match Compare(p, keys, dbdf, dbKeys)
    case Err(e) => Merged(p, Some(e))
    case Ok(sel) =>
      AfterCompare(p, keys, sel, name, annFuncs, steps)
  }

  /** The rest of `merge_db` once the comparison succeeded with the source projection `sel`. */
  function AfterCompare(p: Table, keys: KeyList, sel: Table, name: string, annFuncs: seq<string>, steps: map<string, Step>): Merged
    requires name in p.columns
  {
    var m := MarkExisting(p, keys, sel, name);
    match RunSteps(NewBatch(sel, p.rows, keys, name), annFuncs, steps)
    case Err(e) => Merged(m, Some(e))
    case Ok(b) => Merged(Reconcile(m, b, keys), None)
  }

  // ------------------------------------------------------ what a merge keeps

  /** Rows with the same key tuples, position by position, have the same key set. */
  lemma SameKeysSameKeySet(a: seq<Row>, b: seq<Row>, keys: seq<string>)
    requires |a| == |b| && forall i :: 0 <= i < |a| ==> KeyOf(a[i], keys) == KeyOf(b[i], keys)
    ensures KeySet(a, keys) == KeySet(b, keys)
  {
    forall x | x in KeySet(a, keys) ensures x in KeySet(b, keys) {
      var r :| r in a && KeyOf(r, keys) == x;
      var i :| 0 <= i < |a| && a[i] == r;
      assert b[i] in b;
    }
    forall x | x in KeySet(b, keys) ensures x in KeySet(a, keys) {
      var r :| r in b && KeyOf(r, keys) == x;
      var i :| 0 <= i < |b| && b[i] == r;
      assert a[i] in a;
    }
  }

  /** The source projection keeps every key column, so it keeps the key tuples of the source's rows. */
  lemma ProjectionKeepsKeys(dbdf: Frame, dbKeys: seq<string>, keys: seq<string>)
    requires forall c :: c in keys ==> c in dbKeys
    ensures forall j :: 0 <= j < |dbdf.rows| ==> KeyOf(Reindex(dbdf, dbKeys).rows[j], keys) == KeyOf(dbdf.rows[j], keys)
    ensures KeySet(Reindex(dbdf, dbKeys).rows, keys) == KeySet(dbdf.rows, keys)
  {
    var sel := Reindex(dbdf, dbKeys);
    forall j | 0 <= j < |dbdf.rows| ensures KeyOf(sel.rows[j], keys) == KeyOf(dbdf.rows[j], keys) {
      forall k | 0 <= k < |keys| ensures Get(sel.rows[j], keys[k]) == Get(dbdf.rows[j], keys[k]) {
        assert keys[k] in keys;
      }
    }
    SameKeysSameKeySet(sel.rows, dbdf.rows, keys);
  }

  /** Setting a non-key column keeps the key tuples. */
  lemma MarkKeepsKeys(p: Table, keys: seq<string>, sel: Frame, name: string)
    requires name in p.columns && name !in keys
    ensures forall i :: 0 <= i < |p.rows| ==> KeyOf(MarkExisting(p, keys, sel, name).rows[i], keys) == KeyOf(p.rows[i], keys)
  {
  }

  /**
   * Reindexing and appending change no cell: the old rows come first, then the
   * batch, and a column that a row did not have reads Null.
   */
  lemma ReconcileKeepsCells(m: Table, b: Table, keys: KeyList)
    ensures |Reconcile(m, b, keys).rows| == |m.rows| + |b.rows|
    ensures forall i, c :: 0 <= i < |m.rows| ==> Get(Reconcile(m, b, keys).rows[i], c) == Get(m.rows[i], c)
    ensures forall j, c :: 0 <= j < |b.rows| ==> Get(Reconcile(m, b, keys).rows[|m.rows| + j], c) == Get(b.rows[j], c)
  {
    var cols := MergedColumns(m, b, keys);
    UnionContents(m.columns, b.columns);
    KeysFirst(keys, Union(m.columns, b.columns));
    ReindexKeepsCells(m, cols);
    ReindexKeepsCells(b, cols);
    var g := Reconcile(m, b, keys);
    assert g.rows == Reindex(m, cols).rows + Reindex(b, cols).rows;
  }

  /** Reindexing to a superset of a frame's columns changes no cell. */
  lemma ReindexKeepsCells(f: Table, cols: seq<string>)
    requires Distinct(cols) && forall c :: c in f.columns ==> c in cols
    ensures forall i, c :: 0 <= i < |f.rows| ==> Get(Reindex(f, cols).rows[i], c) == Get(f.rows[i], c)
  {
    var g := Reindex(f, cols);
    forall i, c | 0 <= i < |f.rows| ensures Get(g.rows[i], c) == Get(f.rows[i], c) {
      if c !in cols {
        assert f.rows[i] in f.rows && g.rows[i] in g.rows;
        assert c !in ColumnSet(f.columns);
      }
    }
  }

  /**
   * A completed merge keeps every pre-existing row in place: each cell other
   * than the indicator is as it was (a column the row did not have reads
   * Null), and the indicator becomes 1 when the row's key occurs in the source
   * and otherwise keeps its value (0 if the column is new). It never goes back to 0.
   */
  lemma MergeKeepsExistingRows(t: Table, keys: KeyList, names: seq<string>, name: string, dbdf: Table, dbKeys: KeyList,
                               annFuncs: seq<string>, steps: map<string, Step>, i: nat, c: string)
    requires MergeEffect(t, keys, names, name, dbdf, dbKeys, annFuncs, steps).error.None?
    requires !Empty(t) && i < |t.rows| && name !in keys
    ensures var g := MergeEffect(t, keys, names, name, dbdf, dbKeys, annFuncs, steps).table;
      i < |g.rows|
      && Get(g.rows[i], c) == if c != name then Get(t.rows[i], c)
                              else if KeyOf(t.rows[i], keys) in KeySet(dbdf.rows, keys) then Int(1)
                              else if name in t.columns then Get(t.rows[i], name) else Int(0)
  {
    MergeUnfolds(t, keys, names, name, dbdf, dbKeys, annFuncs, steps);
    var p := Prepare(t, names, name);
    var sel := Reindex(dbdf, dbKeys);
    ProjectionKeepsKeys(dbdf, dbKeys, keys);
    PrepareKeepsKeys(t, names, name, keys);
    var m := MarkExisting(p, keys, sel, name);
    var b := RunSteps(NewBatch(sel, p.rows, keys, name), annFuncs, steps).value;
    ReconcileKeepsCells(m, b, keys);
    MarkExistingCell(p, keys, sel, name, i, c);
  }

  /** The marked table: 1 in the indicator of a row whose key occurs in the source, every other cell as it was. */
  lemma MarkExistingCell(p: Table, keys: seq<string>, sel: Frame, name: string, i: nat, c: string)
    requires name in p.columns && i < |p.rows|
    ensures |MarkExisting(p, keys, sel, name).rows| == |p.rows|
    ensures Get(MarkExisting(p, keys, sel, name).rows[i], c)
      == if c == name && KeyOf(p.rows[i], keys) in KeySet(sel.rows, keys) then Int(1) else Get(p.rows[i], c)
  {
    assert KeyPresence(p.rows, keys, sel.rows)[i] == (KeyOf(p.rows[i], keys) in KeySet(sel.rows, keys));
  }

  /** A completed merge passed the comparison and every step, and appended the annotated batch to the marked table. */
  lemma MergeUnfolds(t: Table, keys: KeyList, names: seq<string>, name: string, dbdf: Table, dbKeys: KeyList,
                     annFuncs: seq<string>, steps: map<string, Step>)
    requires MergeEffect(t, keys, names, name, dbdf, dbKeys, annFuncs, steps).error.None?
    ensures var p := Prepare(t, names, name);
      var sel := Reindex(dbdf, dbKeys);
      var b := RunSteps(NewBatch(sel, p.rows, keys, name), annFuncs, steps);
      Compare(p, keys, dbdf, dbKeys) == Ok(sel) && name in p.columns && b.Ok?
      && MergeEffect(t, keys, names, name, dbdf, dbKeys, annFuncs, steps).table == Reconcile(MarkExisting(p, keys, sel, name), b.value, keys)
  {
  }

  /**
   * After a completed merge the table holds the prepared rows, then the
   * annotated batch: row count = old count + batch size, and every batch cell
   * is where the batch had it.
   */
  lemma MergeRowAccounting(t: Table, keys: KeyList, names: seq<string>, name: string, dbdf: Table, dbKeys: KeyList,
                           annFuncs: seq<string>, steps: map<string, Step>, batch: Table)
    requires MergeEffect(t, keys, names, name, dbdf, dbKeys, annFuncs, steps).error.None?
    requires RunSteps(NewBatch(Reindex(dbdf, dbKeys), Prepare(t, names, name).rows, keys, name), annFuncs, steps) == Ok(batch)
    ensures var g := MergeEffect(t, keys, names, name, dbdf, dbKeys, annFuncs, steps).table;
      |g.rows| == |Prepare(t, names, name).rows| + |batch.rows|
    ensures var g := MergeEffect(t, keys, names, name, dbdf, dbKeys, annFuncs, steps).table;
      forall j, c :: 0 <= j < |batch.rows| ==> Get(g.rows[|Prepare(t, names, name).rows| + j], c) == Get(batch.rows[j], c)
  {
    MergeUnfolds(t, keys, names, name, dbdf, dbKeys, annFuncs, steps);
    var p := Prepare(t, names, name);
    var m := MarkExisting(p, keys, Reindex(dbdf, dbKeys), name);
    ReconcileKeepsCells(m, batch, keys);
  }

  /**
   * The columns after a completed merge: the key columns lead, no name repeats,
   * and they are exactly the keys, the prepared table's columns and the batch's columns.
   */
  lemma MergeColumns(t: Table, keys: KeyList, names: seq<string>, name: string, dbdf: Table, dbKeys: KeyList,
                     annFuncs: seq<string>, steps: map<string, Step>)
    requires MergeEffect(t, keys, names, name, dbdf, dbKeys, annFuncs, steps).error.None?
    ensures var p := Prepare(t, names, name);
      var b := RunSteps(NewBatch(Reindex(dbdf, dbKeys), p.rows, keys, name), annFuncs, steps);
      var g := MergeEffect(t, keys, names, name, dbdf, dbKeys, annFuncs, steps).table;
      b.Ok? && |keys| <= |g.columns| && g.columns[..|keys|] == keys && Distinct(g.columns)
      && forall c :: c in g.columns <==> c in keys || c in p.columns || c in b.value.columns
  {
    var p := Prepare(t, names, name);
    var sel := Reindex(dbdf, dbKeys);
    assert Compare(p, keys, dbdf, dbKeys) == Ok(sel);
    var m := MarkExisting(p, keys, sel, name);
    var b := RunSteps(NewBatch(sel, p.rows, keys, name), annFuncs, steps).value;
    UnionContents(m.columns, b.columns);
    KeysFirst(keys, Union(m.columns, b.columns));
  }

  /** The annotation steps compose: running `xs + ys` runs `xs`, then `ys` on its result, and stops at the first failure. */
  lemma {:induction false} RunStepsAppend(batch: Table, xs: seq<string>, ys: seq<string>, steps: map<string, Step>)
    ensures RunSteps(batch, xs + ys, steps)
              == match RunSteps(batch, xs, steps) case Ok(b) => RunSteps(b, ys, steps) case Err(e) => Err(e)
    decreases |xs|
  {
    if |xs| == 0 {
      assert xs + ys == ys;
    } else {
      assert (xs + ys)[0] == xs[0] && (xs + ys)[1..] == xs[1..] + ys;
      if xs[0] in steps {
        match steps[xs[0]](batch)
        case Raised(_) =>
        case Done(mutated, returned) =>
          RunStepsAppend(if returned.Some? then returned.value else mutated, xs[1..], ys, steps);
      }
    }
  }

  lemma UniqueKeysTail(rows: seq<Row>, keys: seq<string>)
    requires |rows| > 0 && UniqueKeys(rows, keys)
    ensures UniqueKeys(rows[1..], keys)
    ensures forall x :: x in rows[1..] ==> KeyOf(x, keys) != KeyOf(rows[0], keys)
  {
    forall i, j | 0 <= i < j < |rows[1..]| ensures KeyOf(rows[1..][i], keys) != KeyOf(rows[1..][j], keys) {
      assert rows[1..][i] == rows[i + 1] && rows[1..][j] == rows[j + 1];
    }
    forall x | x in rows[1..] ensures KeyOf(x, keys) != KeyOf(rows[0], keys) {
      var k :| 0 <= k < |rows[1..]| && rows[1..][k] == x;
      assert rows[k + 1] == x;
    }
  }

  lemma UniqueKeysCons(h: Row, rest: seq<Row>, keys: seq<string>)
    requires UniqueKeys(rest, keys) && forall x :: x in rest ==> KeyOf(x, keys) != KeyOf(h, keys)
    ensures UniqueKeys([h] + rest, keys)
  {
    var r := [h] + rest;
    forall i, j | 0 <= i < j < |r| ensures KeyOf(r[i], keys) != KeyOf(r[j], keys) {
      assert r[j] == rest[j - 1] && rest[j - 1] in rest;
      if i > 0 {
        assert r[i] == rest[i - 1];
      }
    }
  }

  /** Fresh rows of a source with repeat-free keys have repeat-free keys. */
  lemma {:induction false} FreshKeepsKeysUnique(rows: seq<Row>, known: seq<Row>, keys: seq<string>)
    requires UniqueKeys(rows, keys)
    ensures UniqueKeys(Fresh(rows, known, keys), keys)
    decreases |rows|
  {
    if |rows| > 0 {
      UniqueKeysTail(rows, keys);
      FreshKeepsKeysUnique(rows[1..], known, keys);
      var rest := Fresh(rows[1..], known, keys);
      if KeyOf(rows[0], keys) !in KeySet(known, keys) {
        UniqueKeysCons(rows[0], rest, keys);
      }
    }
  }

  /**
   * Without annotation steps, the appended rows are exactly the `left_only`
   * rows: their key set is the source's keys minus the table's keys.
   */
  lemma AppendedKeysAreNewKeys(t: Table, keys: KeyList, names: seq<string>, name: string, dbdf: Table, dbKeys: KeyList,
                               steps: map<string, Step>)
    requires MergeEffect(t, keys, names, name, dbdf, dbKeys, [], steps).error.None?
    requires name !in keys
    ensures var p := Prepare(t, names, name);
      var g := MergeEffect(t, keys, names, name, dbdf, dbKeys, [], steps).table;
      |p.rows| <= |g.rows| && KeySet(g.rows[|p.rows|..], keys) == KeySet(dbdf.rows, keys) - KeySet(p.rows, keys)
  {
    MergeUnfolds(t, keys, names, name, dbdf, dbKeys, [], steps);
    var p := Prepare(t, names, name);
    var sel := Reindex(dbdf, dbKeys);
    ProjectionKeepsKeys(dbdf, dbKeys, keys);
    NewBatchKeys(sel, p.rows, keys, name);
    ReconcileTailKeys(MarkExisting(p, keys, sel, name), NewBatch(sel, p.rows, keys, name), keys);
  }

  /** The batch's key set is the projection's keys that the table lacks. */
  lemma NewBatchKeys(sel: Table, known: seq<Row>, keys: seq<string>, name: string)
    requires name !in keys
    ensures KeySet(NewBatch(sel, known, keys, name).rows, keys) == KeySet(sel.rows, keys) - KeySet(known, keys)
  {
    var fr := Fresh(sel.rows, known, keys);
    var nb := NewBatch(sel, known, keys, name);
    forall k | 0 <= k < |fr| ensures KeyOf(nb.rows[k], keys) == KeyOf(fr[k], keys) {
      forall q | 0 <= q < |keys| ensures Get(nb.rows[k], keys[q]) == Get(fr[k], keys[q]) {
        AssignKeepsOtherColumns(Frame(sel.columns, fr), name, seq(|fr|, _ => Int(1)), k, keys[q]);
      }
    }
    SameKeysSameKeySet(nb.rows, fr, keys);
    forall x | x in KeySet(sel.rows, keys) - KeySet(known, keys) ensures x in KeySet(fr, keys) {
      var r :| r in sel.rows && KeyOf(r, keys) == x;
      assert r in fr;
    }
  }

  /** The rows appended by the reconciliation carry the batch's key tuples. */
  lemma ReconcileTailKeys(m: Table, b: Table, keys: KeyList)
    ensures |m.rows| <= |Reconcile(m, b, keys).rows|
    ensures KeySet(Reconcile(m, b, keys).rows[|m.rows|..], keys) == KeySet(b.rows, keys)
  {
    var g := Reconcile(m, b, keys);
    ReconcileKeepsCells(m, b, keys);
    var added := g.rows[|m.rows|..];
    forall k | 0 <= k < |b.rows| ensures KeyOf(added[k], keys) == KeyOf(b.rows[k], keys) {
      assert added[k] == g.rows[|m.rows| + k];
    }
    SameKeysSameKeySet(added, b.rows, keys);
  }

  /**
   * Without annotation steps, each appended row holds 1 in the source's
   * indicator and Null in every column outside the source's key columns, the
   * other databases' indicators included.
   */
  lemma NewRowsMarked(t: Table, keys: KeyList, names: seq<string>, name: string, dbdf: Table, dbKeys: KeyList,
                      steps: map<string, Step>, j: nat, c: string)
    requires MergeEffect(t, keys, names, name, dbdf, dbKeys, [], steps).error.None?
    ensures var p := Prepare(t, names, name);
      var g := MergeEffect(t, keys, names, name, dbdf, dbKeys, [], steps).table;
      |p.rows| + j < |g.rows| ==>
        Get(g.rows[|p.rows| + j], name) == Int(1)
        && (c != name && c !in dbKeys ==> Get(g.rows[|p.rows| + j], c) == Null)
  {
    var p := Prepare(t, names, name);
    var sel := Reindex(dbdf, dbKeys);
    var nb := NewBatch(sel, p.rows, keys, name);
    MergeRowAccounting(t, keys, names, name, dbdf, dbKeys, [], steps, nb);
    if j < |nb.rows| {
      NewBatchCells(sel, p.rows, keys, name, j, c);
    }
  }

  /** Each batch row holds 1 in the indicator and Null outside the projection's columns. */
  lemma NewBatchCells(sel: Table, known: seq<Row>, keys: seq<string>, name: string, j: nat, c: string)
    requires j < |NewBatch(sel, known, keys, name).rows|
    ensures Get(NewBatch(sel, known, keys, name).rows[j], name) == Int(1)
    ensures c != name && c !in sel.columns ==> Get(NewBatch(sel, known, keys, name).rows[j], c) == Null
  {
    var fr := Fresh(sel.rows, known, keys);
    if c != name && c !in sel.columns {
      AssignKeepsOtherColumns(Frame(sel.columns, fr), name, seq(|fr|, _ => Int(1)), j, c);
      assert fr[j] in fr && fr[j] in sel.rows;
    }
  }

  /** Row lists keyed alike, position by position, are both repeat-free or both not. */
  lemma UniqueKeysTransfer(a: seq<Row>, b: seq<Row>, keys: seq<string>)
    requires |a| == |b| && forall i :: 0 <= i < |a| ==> KeyOf(a[i], keys) == KeyOf(b[i], keys)
    requires UniqueKeys(a, keys)
    ensures UniqueKeys(b, keys)
  {
  }

  /** Preparing the table keeps the key tuple of every row when the indicator is not a key column. */
  lemma PrepareKeepsKeys(t: Table, names: seq<string>, name: string, keys: seq<string>)
    requires !Empty(t) && name !in keys
    ensures forall i :: 0 <= i < |t.rows| ==> KeyOf(Prepare(t, names, name).rows[i], keys) == KeyOf(t.rows[i], keys)
    ensures KeySet(Prepare(t, names, name).rows, keys) == KeySet(t.rows, keys)
  {
    var p := Prepare(t, names, name);
    forall i | 0 <= i < |t.rows| ensures KeyOf(p.rows[i], keys) == KeyOf(t.rows[i], keys) {
      forall q | 0 <= q < |keys| ensures Get(p.rows[i], keys[q]) == Get(t.rows[i], keys[q]) {
        assert keys[q] in keys;
      }
    }
    SameKeysSameKeySet(p.rows, t.rows, keys);
  }

  /** Two repeat-free row lists with disjoint key sets concatenate to a repeat-free one. */
  lemma ConcatKeepsKeysUnique(a: seq<Row>, b: seq<Row>, keys: seq<string>)
    requires UniqueKeys(a, keys) && UniqueKeys(b, keys)
    requires forall x :: x in KeySet(b, keys) ==> x !in KeySet(a, keys)
    ensures UniqueKeys(a + b, keys)
  {
    var all := a + b;
    forall i, j | 0 <= i < j < |all| ensures KeyOf(all[i], keys) != KeyOf(all[j], keys) {
      if j < |a| {
        assert all[i] == a[i] && all[j] == a[j];
      } else if i >= |a| {
        assert all[i] == b[i - |a|] && all[j] == b[j - |a|];
      } else {
        assert all[i] == a[i] && a[i] in a && KeyOf(a[i], keys) in KeySet(a, keys);
        assert all[j] == b[j - |a|] && b[j - |a|] in b && KeyOf(b[j - |a|], keys) in KeySet(b, keys);
      }
    }
  }

  /** The reconciled rows carry, position by position, the key tuples of the old rows followed by the batch's. */
  lemma ReconcileKeys(m: Table, b: Table, keys: KeyList)
    ensures var g := Reconcile(m, b, keys);
      |g.rows| == |m.rows + b.rows| && forall i :: 0 <= i < |g.rows| ==> KeyOf((m.rows + b.rows)[i], keys) == KeyOf(g.rows[i], keys)
  {
    var g := Reconcile(m, b, keys);
    var all := m.rows + b.rows;
    ReconcileKeepsCells(m, b, keys);
    forall i | 0 <= i < |g.rows| ensures KeyOf(all[i], keys) == KeyOf(g.rows[i], keys) {
      if i >= |m.rows| {
        assert all[i] == b.rows[i - |m.rows|] && g.rows[|m.rows| + (i - |m.rows|)] == g.rows[i];
      }
    }
  }

  /** Appending rows with unseen, repeat-free keys to rows with repeat-free keys keeps the keys repeat-free. */
  lemma ReconcileKeepsKeysUnique(m: Table, b: Table, keys: KeyList)
    requires UniqueKeys(m.rows, keys) && UniqueKeys(b.rows, keys)
    requires forall x :: x in KeySet(b.rows, keys) ==> x !in KeySet(m.rows, keys)
    ensures UniqueKeys(Reconcile(m, b, keys).rows, keys)
  {
    ConcatKeepsKeysUnique(m.rows, b.rows, keys);
    ReconcileKeys(m, b, keys);
    UniqueKeysTransfer(m.rows + b.rows, Reconcile(m, b, keys).rows, keys);
  }

  /** The batch of a repeat-free projection is repeat-free, and its keys are all unseen. */
  lemma NewBatchKeysUnique(sel: Table, known: seq<Row>, keys: seq<string>, name: string)
    requires name !in keys && UniqueKeys(sel.rows, keys)
    ensures UniqueKeys(NewBatch(sel, known, keys, name).rows, keys)
    ensures forall x :: x in KeySet(NewBatch(sel, known, keys, name).rows, keys) ==> x !in KeySet(known, keys)
  {
    var fr := Fresh(sel.rows, known, keys);
    var nb := NewBatch(sel, known, keys, name);
    FreshKeepsKeysUnique(sel.rows, known, keys);
    forall k | 0 <= k < |fr| ensures KeyOf(fr[k], keys) == KeyOf(nb.rows[k], keys) {
      forall q | 0 <= q < |keys| ensures Get(nb.rows[k], keys[q]) == Get(fr[k], keys[q]) {
        AssignKeepsOtherColumns(Frame(sel.columns, fr), name, seq(|fr|, _ => Int(1)), k, keys[q]);
      }
    }
    UniqueKeysTransfer(fr, nb.rows, keys);
    NewBatchKeys(sel, known, keys, name);
  }

  /** The marked table of a repeat-free table is repeat-free and has the same key set. */
  lemma MarkedKeysUnique(t: Table, keys: KeyList, names: seq<string>, name: string, sel: Frame)
    requires name !in keys && UniqueKeys(t.rows, keys)
    ensures var p := Prepare(t, names, name);
      var m := MarkExisting(p, keys, sel, name);
      UniqueKeys(m.rows, keys) && KeySet(m.rows, keys) == KeySet(p.rows, keys)
  {
    var p := Prepare(t, names, name);
    if !Empty(t) {
      PrepareKeepsKeys(t, names, name, keys);
      UniqueKeysTransfer(t.rows, p.rows, keys);
    }
    MarkKeepsKeys(p, keys, sel, name);
    var m := MarkExisting(p, keys, sel, name);
    UniqueKeysTransfer(p.rows, m.rows, keys);
    SameKeysSameKeySet(p.rows, m.rows, keys);
  }

  /**
   * Key uniqueness survives a merge only conditionally: when the table's keys
   * and the source's keys are each repeat-free and no annotation step runs,
   * the merged table's keys are repeat-free.
   */
  lemma MergeKeepsKeysUnique(t: Table, keys: KeyList, names: seq<string>, name: string, dbdf: Table, dbKeys: KeyList,
                             steps: map<string, Step>)
    requires MergeEffect(t, keys, names, name, dbdf, dbKeys, [], steps).error.None?
    requires name !in keys && UniqueKeys(t.rows, keys) && UniqueKeys(dbdf.rows, keys)
    ensures UniqueKeys(MergeEffect(t, keys, names, name, dbdf, dbKeys, [], steps).table.rows, keys)
  {
    MergeUnfolds(t, keys, names, name, dbdf, dbKeys, [], steps);
    var p := Prepare(t, names, name);
    var sel := Reindex(dbdf, dbKeys);
    MarkedKeysUnique(t, keys, names, name, sel);
    ProjectionKeepsKeys(dbdf, dbKeys, keys);
    UniqueKeysTransfer(dbdf.rows, sel.rows, keys);
    NewBatchKeysUnique(sel, p.rows, keys, name);
    ReconcileKeepsKeysUnique(MarkExisting(p, keys, sel, name), NewBatch(sel, p.rows, keys, name), keys);
  }

  /** Rows have no key tuple at all exactly when there are no rows. */
  lemma NoKeysNoRows(rows: seq<Row>, keys: seq<string>)
    ensures KeySet(rows, keys) == {} <==> rows == []
  {
    if rows != [] {
      assert KeyOf(rows[0], keys) in KeySet(rows, keys);
    }
  }

  /**
   * Merging a source whose keys the table already holds adds no row (without
   * annotation steps): only indicators change.
   */
  lemma RemergeAddsNoRows(t: Table, keys: KeyList, names: seq<string>, name: string, dbdf: Table, dbKeys: KeyList,
                          steps: map<string, Step>)
    requires MergeEffect(t, keys, names, name, dbdf, dbKeys, [], steps).error.None?
    requires !Empty(t) && name !in keys && KeySet(dbdf.rows, keys) <= KeySet(t.rows, keys)
    ensures |MergeEffect(t, keys, names, name, dbdf, dbKeys, [], steps).table.rows| == |t.rows|
  {
    var p := Prepare(t, names, name);
    var g := MergeEffect(t, keys, names, name, dbdf, dbKeys, [], steps).table;
    PrepareKeepsKeys(t, names, name, keys);
    AppendedKeysAreNewKeys(t, keys, names, name, dbdf, dbKeys, steps);
    NoKeysNoRows(g.rows[|p.rows|..], keys);
  }

  /** The file formats `save_table` writes. */
  datatype Format = Csv | Xlsx | Tsv

  /** The format selection of `save_table`: "csv", "xlsx" or "tsv", and a ValueError for anything else. */
  function SaveFormat(fmt: string): (r: Result<Format>)
    ensures r.Ok? <==> fmt in {"csv", "xlsx", "tsv"}
    ensures r == Ok(Csv) <==> fmt == "csv"
    ensures r == Ok(Xlsx) <==> fmt == "xlsx"
    ensures r == Ok(Tsv) <==> fmt == "tsv"
  {
    if fmt == "csv" then Ok(Csv)
    else if fmt == "xlsx" then Ok(Xlsx)
    else if fmt == "tsv" then Ok(Tsv)
    else Err(ValueError("Unsupported file format. Supported formats are: csv, xlsx, tsv."))
  }

  function Names(dbs: seq<SourceDb>): (r: seq<string>)
    ensures |r| == |dbs| && forall i :: 0 <= i < |dbs| ==> r[i] == dbs[i].name
  {
    seq(|dbs|, i requires 0 <= i < |dbs| => dbs[i].name)
  }

  // ----------------------------------------------------------- the engine

  /** The `ann_funcs` loop of `merge_db`: rebinds the batch to each step's result. */
  method ApplySteps(batch: Table, names: seq<string>, steps: map<string, Step>) returns (r: Result<Table>)
    ensures r == RunSteps(batch, names, steps)
  {
    var b: Table := batch;
    var i := 0;
    while i < |names|
      invariant 0 <= i <= |names|
      invariant RunSteps(batch, names, steps) == RunSteps(b, names[i..], steps)
    {
      assert names[i..][1..] == names[i + 1..];
      var f := names[i];
      if f !in steps {
        return Err(KeyError([f]));
      }
      var out := steps[f](b);
      if out.Raised? {
        return Err(out.error);
      }
      b := if out.returned.Some? then out.returned.value else out.mutated;
      i := i + 1;
    }
    return Ok(b);
  }

  /**
   * `merge_db` on each database of `dbs` in turn, each merged with the frame
   * of `loads` at its position; the first exception stops the run and leaves
   * the table as that merge left it.
   */
  function MergeAll(t: Table, keys: KeyList, names: seq<string>, dbs: seq<SourceDb>, loads: seq<Table>,
                    annFuncs: seq<string>): Merged
    requires |loads| == |dbs|
    decreases |dbs|
  {
    if |dbs| == 0 then Merged(t, None)
    else if dbs[0].kind != VariantsKind then Merged(t, Some(ValueError("Only VariantsDb can be merged into the extended table.")))
    else
      var e := MergeEffect(t, keys, names, dbs[0].name, loads[0], dbs[0].keyCols, annFuncs, dbs[0].steps);
      if e.error.Some? then e else MergeAll(e.table, keys, names, dbs[1..], loads[1..], annFuncs)
  }

  /**
   * The frame each database of `dbs` is merged with when they are merged in
   * order: its loaded frame, pre-processed; or its upload, pre-processed, when
   * nothing is loaded or an earlier merge of the same database released it.
   */
  function Loads(dbs: seq<SourceDb>): (r: seq<Table>)
    reads set j | 0 <= j < |dbs| :: dbs[j]
    ensures |r| == |dbs|
  {
    seq(|dbs|, i requires 0 <= i < |dbs| reads set j | 0 <= j < |dbs| :: dbs[j] =>
      dbs[i].preProcessor(if dbs[i] !in dbs[..i] && dbs[i].df.Some? then dbs[i].df.value else dbs[i].raw))
  }

  /** An element of `s[i..j]` is `s[i]` or an element of `s[i + 1..j]`. */
  lemma InSliceFrom<T>(s: seq<T>, i: nat)
    requires i < |s|
    ensures forall j :: i + 1 <= j < |s| ==> (s[j] in s[i..j] <==> s[j] == s[i] || s[j] in s[i + 1..j])
  {
    forall j | i + 1 <= j < |s| ensures s[j] in s[i..j] <==> s[j] == s[i] || s[j] in s[i + 1..j] {
      assert s[i..j] == [s[i]] + s[i + 1..j];
    }
  }

  /**
   * The databases of `dbs`, holding the frames `dfs`, are merged from `i` on:
   * the first `i` have released their frames, and each later one is to be
   * merged with its entry of `loads`, its own frame or else its upload.
   */
  ghost predicate Pending(i: nat, dbs: seq<SourceDb>, dfs: seq<Option<Table>>, loads: seq<Table>)
  {
    && i <= |dbs| && |dfs| == |dbs| && |loads| == |dbs|
    && (forall k :: 0 <= k < i ==> dfs[k] == None)
    && (forall j :: i <= j < |dbs| ==> loads[j] == dbs[j].preProcessor(
          if dbs[j] !in dbs[i..j] && dfs[j].Some? then dfs[j].value else dbs[j].raw))
  }

  /**
   * After database `i` is merged and releases its frame (and so every
   * occurrence of it does), the merge carries on from `i + 1` with the same
   * loads: a later occurrence of that database is loaded from its upload
   * either way.
   */
  lemma {:induction false} PendingAfterRelease(dbs: seq<SourceDb>, i: nat, loads: seq<Table>, before: seq<Option<Table>>, after: seq<Option<Table>>)
    requires i < |dbs| && Pending(i, dbs, before, loads) && |after| == |dbs|
    requires forall j :: 0 <= j < |dbs| ==> after[j] == if dbs[j] == dbs[i] then None else before[j]
    ensures Pending(i + 1, dbs, after, loads)
  {
    InSliceFrom(dbs, i);
  }

  /** Every database of `dbs` from `i` on that was not met before `i` still holds its frame of `dfs0`. */
  ghost predicate Untouched(i: nat, dbs: seq<SourceDb>, dfs: seq<Option<Table>>, dfs0: seq<Option<Table>>)
  {
    && i <= |dbs| && |dfs| == |dbs| && |dfs0| == |dbs|
    && forall j :: i <= j < |dbs| && dbs[j] !in dbs[..i] ==> dfs[j] == dfs0[j]
  }

  /** Merging database `i` changes no frame but its own, so the later databases not met yet stay untouched. */
  lemma UntouchedAfterStep(dbs: seq<SourceDb>, i: nat, before: seq<Option<Table>>, after: seq<Option<Table>>, dfs0: seq<Option<Table>>)
    requires i < |dbs| && Untouched(i, dbs, before, dfs0) && |after| == |dbs|
    requires forall j :: 0 <= j < |dbs| && dbs[j] != dbs[i] ==> after[j] == before[j]
    ensures Untouched(i + 1, dbs, after, dfs0)
  {
    assert dbs[..i + 1] == dbs[..i] + [dbs[i]];
  }

  /**
   * The frames `dfs` of the databases `dbs` after `merge_all_dbs` stopped at
   * database `i`, given the frames `dfs0` they held and the frames `loads`
   * they were to be merged with when it started: the databases merged before
   * are released, the failing one keeps what `merge_db` left in it (its
   * loaded frame, or its old one when it was not a variants database), and
   * the later ones not met before are untouched.
   */
  ghost predicate FailedAt(i: nat, dbs: seq<SourceDb>, dfs: seq<Option<Table>>, dfs0: seq<Option<Table>>, loads: seq<Table>)
  {
    && i < |dbs| && |dfs| == |dbs| && |dfs0| == |dbs| && |loads| == |dbs|
    && (forall k :: 0 <= k < i && dbs[k] != dbs[i] ==> dfs[k] == None)
    && dfs[i] == (if dbs[i].kind == VariantsKind then Some(loads[i]) else dfs0[i])
    && (forall j :: i < j < |dbs| && dbs[j] !in dbs[..i + 1] ==> dfs[j] == dfs0[j])
  }

  /**
   * When `merge_db` fails on database `i`, every database before it having
   * been a variants database, the frames are those `FailedAt` describes.
   */
  lemma FailedAtStep(dbs: seq<SourceDb>, i: nat, before: seq<Option<Table>>, after: seq<Option<Table>>,
                     dfs0: seq<Option<Table>>, loads: seq<Table>)
    requires i < |dbs| && Pending(i, dbs, before, loads) && Untouched(i, dbs, before, dfs0) && |after| == |dbs|
    requires forall k :: 0 <= k < i ==> dbs[k].kind == VariantsKind
    requires after[i] == if dbs[i].kind == VariantsKind then Some(loads[i]) else before[i]
    requires forall j :: 0 <= j < |dbs| && dbs[j] != dbs[i] ==> after[j] == before[j]
    ensures FailedAt(i, dbs, after, dfs0, loads)
  {
    assert dbs[i].kind != VariantsKind ==> dbs[i] !in dbs[..i];
    assert dbs[..i + 1] == dbs[..i] + [dbs[i]];
  }

  /** The frame each database of `dbs` holds. */
  function Dfs(dbs: seq<SourceDb>): (r: seq<Option<Table>>)
    reads set j | 0 <= j < |dbs| :: dbs[j]
    ensures |r| == |dbs| && forall j :: 0 <= j < |dbs| ==> r[j] == dbs[j].df
  {
    seq(|dbs|, j requires 0 <= j < |dbs| reads set k | 0 <= k < |dbs| :: dbs[k] => dbs[j].df)
  }

  /**
   * `validate` as `run_validation` runs it for each database of `dbs` in turn,
   * on the upload pre-processed; the first exception stops the run.
   */
  function ValidateAll(f: Frame, dbs: seq<SourceDb>): Checked
    decreases |dbs|
  {
    if |dbs| == 0 then Checked(f, None)
    else
      var e := ValidateEffect(f, dbs[0].keyCols, dbs[0].name, Some(dbs[0].preProcessor(dbs[0].raw)));
      if e.error.Some? then e else ValidateAll(e.frame, dbs[1..])
  }

  /** A run that completes went through its first merge, which completed, and continued from its table. */
  lemma MergeAllUnfolds(t: Table, keys: KeyList, names: seq<string>, dbs: seq<SourceDb>, loads: seq<Table>,
                        annFuncs: seq<string>)
    requires |loads| == |dbs| > 0 && MergeAll(t, keys, names, dbs, loads, annFuncs).error.None?
    ensures var e := MergeEffect(t, keys, names, dbs[0].name, loads[0], dbs[0].keyCols, annFuncs, dbs[0].steps);
      && e.error.None?
      && MergeAll(t, keys, names, dbs, loads, annFuncs) == MergeAll(e.table, keys, names, dbs[1..], loads[1..], annFuncs)
  {
  }

  /**
   * When no annotation step runs, every indicator name differs from the keys
   * and each merged frame has repeat-free keys, a run of merges that completes
   * keeps the table's keys repeat-free.
   */
  lemma {:induction false} MergeAllKeepsKeysUnique(t: Table, keys: KeyList, names: seq<string>, dbs: seq<SourceDb>,
                                                   loads: seq<Table>)
    requires |loads| == |dbs| && MergeAll(t, keys, names, dbs, loads, []).error.None?
    requires UniqueKeys(t.rows, keys)
    requires forall d :: d in dbs ==> d.name !in keys
    requires forall l :: l in loads ==> UniqueKeys(l.rows, keys)
    ensures UniqueKeys(MergeAll(t, keys, names, dbs, loads, []).table.rows, keys)
    decreases |dbs|
  {
    if |dbs| > 0 {
      MergeAllUnfolds(t, keys, names, dbs, loads, []);
      MergeKeepsKeysUnique(t, keys, names, dbs[0].name, loads[0], dbs[0].keyCols, dbs[0].steps);
      var e := MergeEffect(t, keys, names, dbs[0].name, loads[0], dbs[0].keyCols, [], dbs[0].steps);
      MergeAllKeepsKeysUnique(e.table, keys, names, dbs[1..], loads[1..]);
    }
  }

  /**
   * A run of validations writes only the databases' own columns: the row count
   * and every cell of any other column stay as they were.
   */
  lemma {:induction false} ValidateAllKeepsOtherCells(f: Frame, dbs: seq<SourceDb>, i: nat, c: string)
    requires i < |f.rows| && forall j :: 0 <= j < |dbs| ==> dbs[j].name != c
    ensures |ValidateAll(f, dbs).frame.rows| == |f.rows|
    ensures Get(ValidateAll(f, dbs).frame.rows[i], c) == Get(f.rows[i], c)
    decreases |dbs|
  {
    if |dbs| > 0 {
      var ref := Some(dbs[0].preProcessor(dbs[0].raw));
      ValidateKeepsOtherCells(f, dbs[0].keyCols, dbs[0].name, ref, i, c);
      var e := ValidateEffect(f, dbs[0].keyCols, dbs[0].name, ref);
      assert forall j :: 0 <= j < |dbs| - 1 ==> dbs[1..][j] == dbs[j + 1];
      ValidateAllKeepsOtherCells(e.frame, dbs[1..], i, c);
    }
  }

  class ExtendedTable {
    var table: DataFrame
    const keyCols: KeyList
    var variantDbs: seq<SourceDb>
    var validationDbs: seq<SourceDb>
    const annFuncs: seq<string>

    ghost predicate Valid()
      reads this, table
    {
      table.Valid()
    }

    /** The names `create_basic_table` starts from: keys, variants databases, validation databases. */
    function BasicNames(): seq<string>
      reads this
    {
      keyCols + Names(variantDbs) + Names(validationDbs)
    }

    /** A new engine over an empty table. */
    constructor (keyCols: KeyList, variantDbs: seq<SourceDb>, validationDbs: seq<SourceDb>, annFuncs: seq<string>)
      ensures Valid() && fresh(table) && table.Snapshot() == Frame([], [])
      ensures this.keyCols == keyCols && this.variantDbs == variantDbs
      ensures this.validationDbs == validationDbs && this.annFuncs == annFuncs
    {
      table := new DataFrame(Frame([], []));
      this.keyCols := keyCols;
      this.variantDbs := variantDbs;
      this.validationDbs := validationDbs;
      this.annFuncs := annFuncs;
    }

    /** `create_basic_table`: a new table object with the de-duplicated basic names as columns and no rows. */
    method CreateBasicTable()
      modifies this
      ensures Valid() && fresh(table) && table.Snapshot() == Frame(FromKeys(BasicNames()), [])
      ensures variantDbs == old(variantDbs) && validationDbs == old(validationDbs)
    {
      table := new DataFrame(Frame(FromKeys(BasicNames()), []));
    }

    /** `register_db`: file a database under its kind; anything else is a ValueError. */
    method RegisterDb(db: SourceDb) returns (err: Option<Error>)
      modifies this
      ensures table == old(table)
      ensures db.kind == VariantsKind ==> err == None && variantDbs == old(variantDbs) + [db] && validationDbs == old(validationDbs)
      ensures db.kind == ValidationKind ==> err == None && validationDbs == old(validationDbs) + [db] && variantDbs == old(variantDbs)
      ensures db.kind == OtherKind ==> err == Some(ValueError("Unsupported database type.")) && variantDbs == old(variantDbs) && validationDbs == old(validationDbs)
    {
      match db.kind
      case VariantsKind =>
        variantDbs := variantDbs + [db];
        return None;
      case ValidationKind =>
        validationDbs := validationDbs + [db];
        return None;
      case OtherKind =>
        return Some(ValueError("Unsupported database type."));
    }

    /** `merge_db(db)`. */
    method MergeDb(db: SourceDb) returns (err: Option<Error>)
      requires Valid()
      modifies this, table, db
      ensures Valid() && variantDbs == old(variantDbs) && validationDbs == old(validationDbs)
      ensures table == old(table) || fresh(table)
      ensures err.None? ==> db.df == None
      ensures db.kind != VariantsKind ==>
                err == Some(ValueError("Only VariantsDb can be merged into the extended table."))
                && table.Snapshot() == old(table.Snapshot()) && db.df == old(db.df)
      ensures db.kind == VariantsKind ==>
                var loaded := db.preProcessor(if old(db.df).Some? then old(db.df).value else db.raw);
                var e := MergeEffect(old(table.Snapshot()), keyCols, old(BasicNames()), db.name, loaded, db.keyCols, annFuncs, db.steps);
                table.Snapshot() == e.table && err == e.error && db.df == (if e.error.None? then None else Some(loaded))
    {
      if db.kind != VariantsKind {
        return Some(ValueError("Only VariantsDb can be merged into the extended table."));
      }
      if db.df.None? {
        db.UploadDb();
      }
      db.PreProcess();
      err := MergeLoaded(db.name, db.df.value, db.keyCols, db.steps);
      if err.None? {
        db.df := None;
      }
    }

    /** The table's side of `merge_db`, once the source frame `dbdf` is loaded and pre-processed. */
    method MergeLoaded(name: string, dbdf: Table, dbKeys: KeyList, steps: map<string, Step>) returns (err: Option<Error>)
      requires Valid()
      modifies this, table
      ensures Valid() && variantDbs == old(variantDbs) && validationDbs == old(validationDbs)
      ensures table == old(table) || fresh(table)
      ensures var e := MergeEffect(old(table.Snapshot()), keyCols, old(BasicNames()), name, dbdf, dbKeys, annFuncs, steps);
        table.Snapshot() == e.table && err == e.error
    {
      PrepareTable(name);
      var c := Compare(table.Snapshot(), keyCols, dbdf, dbKeys);
      if c.Err? {
        return Some(c.error);
      }
      err := MergeBatch(name, c.value, steps);
    }

    /** The steps of `merge_db` before the key comparison: the basic table if empty, then the indicator column. */
    method PrepareTable(name: string)
      requires Valid()
      modifies this, table
      ensures Valid() && variantDbs == old(variantDbs) && validationDbs == old(validationDbs)
      ensures table == old(table) || fresh(table)
      ensures table.Snapshot() == Prepare(old(table.Snapshot()), old(BasicNames()), name)
    {
      if Empty(table.Snapshot()) {
        CreateBasicTable();
      }
      if name !in table.columns {
        table.FillColumn(name, Int(0));
      }
    }

    /** The steps of `merge_db` after the key comparison: mark existing rows, annotate the new ones, append them. */
    method MergeBatch(name: string, sel: Table, steps: map<string, Step>) returns (err: Option<Error>)
      requires Valid() && name in table.columns
      modifies this, table
      ensures Valid() && variantDbs == old(variantDbs) && validationDbs == old(validationDbs)
      ensures table == old(table) || fresh(table)
      ensures var e := AfterCompare(old(table.Snapshot()), keyCols, sel, name, annFuncs, steps);
        table.Snapshot() == e.table && err == e.error
    {
      var newDf := NewBatch(sel, table.rows, keyCols, name);
      table.SetWhere(KeyPresence(table.rows, keyCols, sel.rows), name, Int(1));
      var annotated := ApplySteps(newDf, annFuncs, steps);
      if annotated.Err? {
        return Some(annotated.error);
      }
      table := new DataFrame(Reconcile(table.Snapshot(), annotated.value, keyCols));
      return None;
    }

    /**
     * The state `merge_all_dbs` is in before merging database `i`: the first
     * `i` databases are merged and released, each later one would be merged
     * with its entry of `loads`, and carrying on from the current table gives
     * the run that started from `t0`.
     */
    ghost predicate Resumable(i: nat, t0: Table, names: seq<string>, loads: seq<Table>)
      reads this, table, set j | 0 <= j < |variantDbs| :: variantDbs[j]
    {
      && Valid() && Pending(i, variantDbs, Dfs(variantDbs), loads)
      && MergeAll(t0, keyCols, names, variantDbs, loads, annFuncs)
           == MergeAll(table.Snapshot(), keyCols, names, variantDbs[i..], loads[i..], annFuncs)
    }

    /**
     * One pass of `merge_all_dbs`'s loop: `merge_db` on database `i`. The run
     * stops here with this exception, or is ready for database `i + 1`.
     */
    method MergeNext(i: nat, ghost t0: Table, ghost loads: seq<Table>, ghost dfs0: seq<Option<Table>>) returns (err: Option<Error>)
      requires i < |variantDbs| && Resumable(i, t0, BasicNames(), loads)
      requires Untouched(i, variantDbs, Dfs(variantDbs), dfs0)
      requires forall k :: 0 <= k < i ==> variantDbs[k].kind == VariantsKind
      modifies this, table, variantDbs[i]
      ensures variantDbs == old(variantDbs) && validationDbs == old(validationDbs)
      ensures table == old(table) || fresh(table)
      ensures err.None? ==> Resumable(i + 1, t0, BasicNames(), loads) && variantDbs[i].kind == VariantsKind
      ensures err.None? ==> Untouched(i + 1, variantDbs, Dfs(variantDbs), dfs0)
      ensures err.Some? ==> Valid() && MergeAll(t0, keyCols, BasicNames(), variantDbs, loads, annFuncs) == Merged(table.Snapshot(), err)
      ensures err.Some? ==> FailedAt(i, variantDbs, Dfs(variantDbs), dfs0, loads)
    {
      var db := variantDbs[i];
      ghost var dbs := variantDbs;
      ghost var before := Dfs(dbs);
      assert dbs[i..i] == [];
      err := MergeStep(db, dbs[i..], loads[i..]);
      assert dbs[i..][1..] == dbs[i + 1..] && loads[i..][1..] == loads[i + 1..];
      ghost var after := Dfs(dbs);
      forall j | 0 <= j < |dbs| ensures after[j] == if dbs[j] == db then db.df else before[j] {
      }
      if err.None? {
        PendingAfterRelease(dbs, i, loads, before, after);
        UntouchedAfterStep(dbs, i, before, after, dfs0);
      } else {
        FailedAtStep(dbs, i, before, after, dfs0, loads);
      }
    }

    /**
     * `merge_db` on the first database of `dbs`, merged with `loads[0]`: the
     * run over `dbs` stops with its exception or carries on from the new
     * table with the rest.
     */
    method MergeStep(db: SourceDb, ghost dbs: seq<SourceDb>, ghost loads: seq<Table>) returns (err: Option<Error>)
      requires Valid() && |dbs| == |loads| && |dbs| > 0 && dbs[0] == db
      requires loads[0] == db.preProcessor(if db.df.Some? then db.df.value else db.raw)
      modifies this, table, db
      ensures Valid() && variantDbs == old(variantDbs) && validationDbs == old(validationDbs)
      ensures table == old(table) || fresh(table)
      ensures err.None? ==> db.df == None && db.kind == VariantsKind
      ensures err.Some? ==> db.df == if db.kind == VariantsKind then Some(loads[0]) else old(db.df)
      ensures var m := MergeAll(old(table.Snapshot()), keyCols, old(BasicNames()), dbs, loads, annFuncs);
        if err.Some? then m.table == table.Snapshot() && m.error == err
        else m == MergeAll(table.Snapshot(), keyCols, old(BasicNames()), dbs[1..], loads[1..], annFuncs)
    {
      err := MergeDb(db);
    }

    /** `merge_all_dbs`: merge every registered variants database in order; the first exception stops it. */
    method MergeAllDbs() returns (err: Option<Error>)
      requires Valid()
      modifies this, table, variantDbs
      ensures Valid() && variantDbs == old(variantDbs) && validationDbs == old(validationDbs)
      ensures err.None? ==> forall d :: d in variantDbs ==> d.df == None
      ensures var e := MergeAll(old(table.Snapshot()), keyCols, old(BasicNames()), variantDbs, old(Loads(variantDbs)), annFuncs);
        table.Snapshot() == e.table && err == e.error
      ensures err.Some? ==> exists i :: FailedAt(i, variantDbs, Dfs(variantDbs), old(Dfs(variantDbs)), old(Loads(variantDbs)))
    {
      ghost var loads := Loads(variantDbs);
      ghost var dfs0 := Dfs(variantDbs);
      ghost var t0 := table.Snapshot();
      var i := 0;
      while i < |variantDbs|
        invariant variantDbs == old(variantDbs) && validationDbs == old(validationDbs)
        invariant table == old(table) || fresh(table)
        invariant i <= |variantDbs| && Resumable(i, t0, BasicNames(), loads)
        invariant forall k :: 0 <= k < i ==> variantDbs[k].kind == VariantsKind
        invariant Untouched(i, variantDbs, Dfs(variantDbs), dfs0)
      {
        err := MergeNext(i, t0, loads, dfs0);
        if err.Some? {
          return;
        }
        i := i + 1;
      }
      return None;
    }

    /** `validate_table`: run each validation database's pass on the table object, in order. */
    method ValidateTable() returns (err: Option<Error>)
      requires Valid()
      modifies table, validationDbs
      ensures Valid()
      ensures var e := ValidateAll(old(table.Snapshot()), validationDbs);
        table.Snapshot() == e.frame && err == e.error
      ensures forall c :: c in old(table.columns) ==> c in table.columns
      ensures err.None? ==> forall d :: d in validationDbs ==> d.name in table.columns
    {
      var i := 0;
      while i < |validationDbs|
        invariant 0 <= i <= |validationDbs|
        invariant Valid()
        invariant ValidateAll(old(table.Snapshot()), validationDbs) == ValidateAll(table.Snapshot(), validationDbs[i..])
        invariant forall c :: c in old(table.columns) ==> c in table.columns
        invariant forall k :: 0 <= k < i ==> validationDbs[k].name in table.columns
      {
        assert validationDbs[i..][1..] == validationDbs[i + 1..];
        var r := RunValidation(validationDbs[i], table);
        if r.Err? {
          return Some(r.error);
        }
        i := i + 1;
      }
      return None;
    }
  }
}
