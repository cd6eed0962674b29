/**
 * The hg37 variants source's `vep_annotations(vep_results_path, df)`. It reads
 * a VEP result file, copies fourteen Extra tags into columns, rewrites the
 * caller's join keys as stripped strings, inner-merges the caller's rows with
 * the VEP rows, and then replaces the caller's frame contents by the merge:
 * it drops every row and assigns the merged columns one by one. It returns None.
 */
module Hg37Annotations {
  import opened Wrappers
  import opened Dicts
  import opened Columns
  import opened Frames
  import opened Vep

  /** The Extra tags copied into columns, in this order. */
  const ExtraKeys: seq<string> := ["STRAND", "VARIANT_CLASS", "SYMBOL", "SYMBOL_SOURCE",
    "SIFT", "PHENO", "PolyPhen", "HGVSc", "HGVSp", "PhastCons46", "SWISSPROT", "UNIPARC", "EXON", "IMPACT"]

  /** `vep_df["Extra"].apply(lambda x: get_from_extra(key, x))`; an Extra that is not text (NaN) has no `split` and raises. */
  function ExtraColumn(f: Frame, key: string): (r: Result<seq<Cell>>)
    ensures r.Ok? <==> forall i :: 0 <= i < |f.rows| ==> Get(f.rows[i], "Extra").Str?
    ensures r.Ok? ==> |r.value| == |f.rows|
  {
    if exists i :: 0 <= i < |f.rows| && !Get(f.rows[i], "Extra").Str? then
      Err(AttributeError("'float' object has no attribute 'split'"))
    else
      Ok(seq(|f.rows|, i requires 0 <= i < |f.rows| => NaCell(GetFromExtra(key, Get(f.rows[i], "Extra").s))))
  }

  /** The loop `vep_df[key] = ...` over `keys`, then `vep_df.drop(columns=["Extra"])`. */
  function AddExtras(f: Frame, keys: seq<string>): Result<Frame>
    decreases |keys|
  {
    if |keys| == 0 then Ok(DropColumn(f, "Extra"))
    else
      var col :- ExtraColumn(f, keys[0]);
      AddExtras(Assign(f, keys[0], col), keys[1..])
  }

  /**
   * Copying the tags: the tags become new columns after the existing ones and
   * Extra is gone; each tag's cell holds `get_from_extra` of the row's Extra.
   */
  lemma AddExtrasShape(f: Frame, keys: seq<string>, i: nat, k: string)
    requires AddExtras(f, keys).Ok? && Distinct(keys) && "Extra" !in keys
    requires forall c :: c in keys ==> c !in f.columns
    requires i < |f.rows| && k in keys
    ensures AddExtras(f, keys).value.columns == Without(f.columns + keys, ["Extra"])
    ensures |AddExtras(f, keys).value.rows| == |f.rows| && Get(f.rows[i], "Extra").Str?
    ensures Get(AddExtras(f, keys).value.rows[i], k) == NaCell(GetFromExtra(k, Get(f.rows[i], "Extra").s))
  {
    AddExtrasColumns(f, keys);
    AddExtrasCell(f, keys, i, k);
  }

  /** The tags are appended after the existing columns, and Extra is dropped. */
  lemma {:induction false} AddExtrasColumns(f: Frame, keys: seq<string>)
    requires AddExtras(f, keys).Ok? && Distinct(keys)
    requires forall c :: c in keys ==> c !in f.columns
    ensures AddExtras(f, keys).value.columns == Without(f.columns + keys, ["Extra"])
    ensures |AddExtras(f, keys).value.rows| == |f.rows|
    decreases |keys|
  {
    if |keys| == 0 {
      assert f.columns + keys == f.columns;
    } else {
      var col := ExtraColumn(f, keys[0]).value;
      var g := Assign(f, keys[0], col);
      assert g.columns == f.columns + [keys[0]];
      assert f.columns + keys == g.columns + keys[1..];
      assert forall c :: c in keys[1..] ==> c != keys[0];
      AddExtrasColumns(g, keys[1..]);
    }
  }

  /** Each tag's cell holds `get_from_extra` of the row's Extra. */
  lemma {:induction false} AddExtrasCell(f: Frame, keys: seq<string>, i: nat, k: string)
    requires AddExtras(f, keys).Ok? && Distinct(keys) && "Extra" !in keys
    requires i < |f.rows| && k in keys
    ensures |AddExtras(f, keys).value.rows| == |f.rows| && Get(f.rows[i], "Extra").Str?
    ensures Get(AddExtras(f, keys).value.rows[i], k) == NaCell(GetFromExtra(k, Get(f.rows[i], "Extra").s))
    decreases |keys|
  {
    var col := ExtraColumn(f, keys[0]).value;
    var g := Assign(f, keys[0], col);
    AssignKeepsOtherColumns(f, keys[0], col, i, "Extra");
    if k == keys[0] {
      assert k !in keys[1..];
      AddExtrasKeeps(g, keys[1..], i, k);
    } else {
      AddExtrasCell(g, keys[1..], i, k);
    }
  }

  /** Copying the tags leaves every other column but Extra as it was. */
  lemma {:induction false} AddExtrasKeeps(f: Frame, keys: seq<string>, i: nat, c: string)
    requires AddExtras(f, keys).Ok? && i < |f.rows| && c !in keys && c != "Extra"
    ensures |AddExtras(f, keys).value.rows| == |f.rows|
    ensures Get(AddExtras(f, keys).value.rows[i], c) == Get(f.rows[i], c)
    decreases |keys|
  {
    if |keys| > 0 {
      var col := ExtraColumn(f, keys[0]).value;
      AssignKeepsOtherColumns(f, keys[0], col, i, c);
      AddExtrasKeeps(Assign(f, keys[0], col), keys[1..], i, c);
    }
  }

  /** The VEP rows as they are merged: parsed, the tags copied, the keys normalised. */
  function AnnotatedVep(raw: Frame): Result<Frame>
    requires raw.columns == VepColumns
  {
    var parsed :- ParseVep(raw);
    var vep :- AddExtras(parsed, ExtraKeys);
    Ok(NormaliseKeys(vep, VariantKeys).frame)
  }

  // ------------------------------------------------------------- the refill

  /** The emptied frame `f` after the first `j` assignments `df[col] = merged[col].values`. */
  function Refill(f: Frame, m: Frame, j: nat): (g: Frame)
    requires f.rows == [] && j <= |m.columns|
    ensures |g.rows| == if j == 0 then 0 else |m.rows|
    decreases j
  {
    if j == 0 then f
    else Assign(Refill(f, m, j - 1), m.columns[j - 1], Column(m, m.columns[j - 1]))
  }

  /** The next assignment of the refill, whose column has as many cells as the frame has rows so far (or the frame has none). */
  lemma RefillNext(f: Frame, m: Frame, j: nat)
    requires f.rows == [] && j < |m.columns|
    ensures var vals := Column(m, m.columns[j]);
      (|vals| == |Refill(f, m, j).rows| || |Refill(f, m, j).rows| == 0)
      && Refill(f, m, j + 1) == Assign(Refill(f, m, j), m.columns[j], vals)
  {
  }

  function Max(a: nat, b: nat): nat { if a < b then b else a }

  /** The column list grows from the emptied frame's columns to the merged ones. */
  lemma {:induction false} RefillColumns(f: Frame, m: Frame, j: nat)
    requires f.rows == [] && j <= |m.columns| && Distinct(m.columns)
    requires |f.columns| <= |m.columns| && f.columns == m.columns[..|f.columns|]
    ensures Refill(f, m, j).columns == m.columns[..Max(j, |f.columns|)]
    decreases j
  {
    if j > 0 {
      RefillColumns(f, m, j - 1);
      var c := m.columns[j - 1];
      if j - 1 >= |f.columns| {
        assert c !in m.columns[..j - 1];
        assert m.columns[..j] == m.columns[..j - 1] + [c];
      } else {
        assert c in m.columns[..|f.columns|];
      }
    }
  }

  /** A refilled row: cells exactly for the first `w` merged columns, the merged cells for the first `j`, Null for the rest. */
  predicate RowShape(r: Row, m: Frame, i: nat, j: nat, w: nat)
    requires i < |m.rows| && j <= |m.columns| && w <= |m.columns|
  {
    r.Keys == ColumnSet(m.columns[..w])
    && forall c :: c in r ==> r[c] == if c in m.columns[..j] then Get(m.rows[i], c) else Null
  }

  /** One assignment extends the shape by the next merged column. */
  lemma RefillStep(r: Row, m: Frame, i: nat, j: nat, w: nat)
    requires i < |m.rows| && 0 < j <= |m.columns| && j - 1 <= w <= |m.columns| && Distinct(m.columns)
    requires RowShape(r, m, i, j - 1, w)
    ensures RowShape(r[m.columns[j - 1] := Get(m.rows[i], m.columns[j - 1])], m, i, j, Max(j, w))
  {
    var c := m.columns[j - 1];
    assert m.columns[..j] == m.columns[..j - 1] + [c];
    if j <= w {
      assert c in m.columns[..w];
    } else {
      assert c !in m.columns[..j - 1];
    }
  }

  /** After `j > 0` assignments each row holds the merged cells of the assigned columns and Null in the others. */
  lemma {:induction false} RefillCells(f: Frame, m: Frame, j: nat, i: nat)
    requires f.rows == [] && 0 < j <= |m.columns| && Distinct(m.columns) && i < |m.rows|
    requires |f.columns| <= |m.columns| && f.columns == m.columns[..|f.columns|]
    ensures RowShape(Refill(f, m, j).rows[i], m, i, j, Max(j, |f.columns|))
    decreases j
  {
    var c := m.columns[j - 1];
    if j == 1 {
      var r := NullRow(f.columns);
      assert RowShape(r, m, i, 0, |f.columns|);
      RefillStep(r, m, i, 1, |f.columns|);
      assert Refill(f, m, j).rows[i] == r[c := Get(m.rows[i], c)];
    } else {
      RefillCells(f, m, j - 1, i);
      RefillColumns(f, m, j - 1);
      var g := Refill(f, m, j - 1);
      RefillStep(g.rows[i], m, i, j, Max(j - 1, |f.columns|));
      assert Max(j, Max(j - 1, |f.columns|)) == Max(j, |f.columns|);
      assert Refill(f, m, j).rows[i] == g.rows[i][c := Get(m.rows[i], c)];
    }
  }

  /**
   * When the emptied frame's columns start the merged column list, the refill
   * reproduces the merge exactly: same columns, same rows.
   */
  lemma RefillIsMerge(f: Frame, m: Frame)
    requires f.rows == [] && WellFormed(m) && |m.columns| > 0
    requires |f.columns| <= |m.columns| && f.columns == m.columns[..|f.columns|]
    ensures Refill(f, m, |m.columns|) == m
  {
    var n := |m.columns|;
    var g := Refill(f, m, n);
    RefillColumns(f, m, n);
    assert Max(n, |f.columns|) == n && m.columns[..n] == m.columns;
    forall i | 0 <= i < |m.rows| ensures g.rows[i] == m.rows[i] {
      RefillCells(f, m, n, i);
      ShapedRowIsRow(g.rows[i], m, i);
    }
    assert g.rows == m.rows;
  }

  /** A row shaped by every merged column is the merged row itself. */
  lemma ShapedRowIsRow(r: Row, m: Frame, i: nat)
    requires WellFormed(m) && i < |m.rows| && RowShape(r, m, i, |m.columns|, |m.columns|)
    ensures r == m.rows[i]
  {
    assert m.columns[..|m.columns|] == m.columns;
    assert m.rows[i] in m.rows;
    assert forall c :: c in m.rows[i] ==> Get(m.rows[i], c) == m.rows[i][c];
  }

  // ------------------------------------------------------------ the step

  /**
   * What `vep_annotations` leaves in the caller's frame `f`, and the exception
   * it raised. The file is parsed first (nothing is touched on an error there);
   * then the keys are normalised in place; the match percentages printed
   * after the merge divide by the row counts of both frames.
   */
  function VepEffect(f: Frame, raw: Frame): Normalised
    requires raw.columns == VepColumns
  {
    match AnnotatedVep(raw)
    case Err(e) => Normalised(f, Some(e))
    case Ok(v) =>
      var n := NormaliseKeys(f, VariantKeys);
      if n.error.Some? then n
      else
        match InnerJoin(n.frame, v, VariantKeys)
        case Err(e) => Normalised(n.frame, Some(e))
        case Ok(merged) =>
          if |n.frame.rows| == 0 || |v.rows| == 0 then Normalised(n.frame, Some(ZeroDivisionError))
          else Normalised(Refill(Frame(n.frame.columns, []), merged, |merged.columns|), None)
  }

  /** `vep_annotations(vep_results_path, df)` with the file read as `raw`; it changes `df` and returns None. */
  method VepAnnotations(raw: Frame, df: DataFrame) returns (err: Option<Error>)
    requires raw.columns == VepColumns && df.Valid()
    modifies df
    ensures df.Valid()
    ensures df.Snapshot() == VepEffect(old(df.Snapshot()), raw).frame && err == VepEffect(old(df.Snapshot()), raw).error
  {
    var parsed := ParseVep(raw);
    if parsed.Err? {
      return Some(parsed.error);
    }
    var added := CopyExtras(parsed.value);
    if added.Err? {
      return Some(added.error);
    }
    var v := NormaliseKeys(added.value, VariantKeys).frame;
    assert AnnotatedVep(raw) == Ok(v);
    err := NormaliseKeysInPlace(df, VariantKeys);
    if err.Some? {
      return;
    }
    var merged := InnerJoin(df.Snapshot(), v, VariantKeys);
    if merged.Err? {
      return Some(merged.error);
    }
    if |df.rows| == 0 || |v.rows| == 0 {
      return Some(ZeroDivisionError);
    }
    var start := Frame(df.columns, []);
    df.DropAllRows();
    AssignMerged(df, merged.value, start);
  }

  /** The loop `vep_df[key] = ...` over the tags, then the drop of Extra. */
  method CopyExtras(parsed: Frame) returns (r: Result<Frame>)
    ensures r == AddExtras(parsed, ExtraKeys)
  {
    var vep := parsed;
    var k := 0;
    while k < |ExtraKeys|
      invariant 0 <= k <= |ExtraKeys|
      invariant AddExtras(vep, ExtraKeys[k..]) == AddExtras(parsed, ExtraKeys)
    {
      assert ExtraKeys[k..][1..] == ExtraKeys[k + 1..];
      var col := ExtraColumn(vep, ExtraKeys[k]);
      if col.Err? {
        return Err(col.error);
      }
      vep := Assign(vep, ExtraKeys[k], col.value);
      k := k + 1;
    }
    return Ok(DropColumn(vep, "Extra"));
  }

  /** The loop `df[col] = merged[col].values` over the merged columns, on the emptied frame. */
  method AssignMerged(df: DataFrame, m: Frame, start: Frame)
    requires df.Valid() && df.Snapshot() == start && start.rows == []
    modifies df
    ensures df.Valid() && df.Snapshot() == Refill(start, m, |m.columns|)
  {
    var j := 0;
    while j < |m.columns|
      invariant 0 <= j <= |m.columns| && df.Valid()
      invariant df.Snapshot() == Refill(start, m, j)
    {
      AssignNext(df, m, start, j);
      j := j + 1;
    }
  }

  /** One pass of that loop: `df[col] = merged[col].values` for the `j`-th merged column. */
  method AssignNext(df: DataFrame, m: Frame, start: Frame, j: nat)
    requires start.rows == [] && j < |m.columns|
    requires df.Valid() && df.Snapshot() == Refill(start, m, j)
    modifies df
    ensures df.Valid() && df.Snapshot() == Refill(start, m, j + 1)
  {
    RefillNext(start, m, j);
    df.AssignColumn(m.columns[j], Column(m, m.columns[j]));
  }

  /** Merging on the keys renames no column of the caller's frame when they share only the keys. */
  lemma LeftNamesUnchanged(left: seq<string>, right: seq<string>, on: seq<string>)
    requires forall c :: c in left && c !in on ==> c !in right
    ensures LeftNames(left, right, on) == left
  {
  }

  /**
   * A completed `vep_annotations` leaves in the caller's frame exactly the
   * inner merge of its normalised rows with the VEP rows, provided the two
   * share no column besides the keys: one row per (input row, matching VEP
   * row) pair, so input rows without a match are gone.
   */
  lemma VepAnnotationsLeavesMerge(f: Frame, raw: Frame)
    requires raw.columns == VepColumns && VepEffect(f, raw).error.None?
    requires forall c :: c in f.columns && c !in VariantKeys ==> c !in AnnotatedVep(raw).value.columns
    ensures var n := NormaliseKeys(f, VariantKeys).frame;
      var v := AnnotatedVep(raw).value;
      InnerJoin(n, v, VariantKeys).Ok?
      && VepEffect(f, raw).frame == InnerJoin(n, v, VariantKeys).value
      && |VepEffect(f, raw).frame.rows| == MatchCount(n.rows, v.rows, VariantKeys)
  {
    var n := NormaliseKeys(f, VariantKeys).frame;
    VepEffectUnfolds(f, raw);
    RefillOfJoin(n, AnnotatedVep(raw).value);
  }

  /** Refilling an emptied frame from its merge with a frame sharing only the keys gives back that merge. */
  lemma RefillOfJoin(n: Frame, v: Frame)
    requires forall c :: c in n.columns && c !in VariantKeys ==> c !in v.columns
    requires InnerJoin(n, v, VariantKeys).Ok?
    ensures var m := InnerJoin(n, v, VariantKeys).value;
      Refill(Frame(n.columns, []), m, |m.columns|) == m && |m.rows| == MatchCount(n.rows, v.rows, VariantKeys)
  {
    var m := InnerJoin(n, v, VariantKeys).value;
    InnerJoinWellFormed(n, v, VariantKeys);
    MergeStartsWithLeft(n, v);
    RefillIsMerge(Frame(n.columns, []), m);
    InnerJoinCount(n, v, VariantKeys);
  }

  /** A completed `vep_annotations` passed every check and refilled the frame from the merge. */
  lemma VepEffectUnfolds(f: Frame, raw: Frame)
    requires raw.columns == VepColumns && VepEffect(f, raw).error.None?
    ensures var n := NormaliseKeys(f, VariantKeys);
      AnnotatedVep(raw).Ok? && n.error.None? && InnerJoin(n.frame, AnnotatedVep(raw).value, VariantKeys).Ok?
      && var m := InnerJoin(n.frame, AnnotatedVep(raw).value, VariantKeys).value;
         VepEffect(f, raw).frame == Refill(Frame(n.frame.columns, []), m, |m.columns|)
  {
  }

  /** With only the keys shared, the merged columns start with the left frame's columns. */
  lemma MergeStartsWithLeft(n: Frame, v: Frame)
    requires forall c :: c in n.columns && c !in VariantKeys ==> c !in v.columns
    requires InnerJoin(n, v, VariantKeys).Ok?
    ensures var m := InnerJoin(n, v, VariantKeys).value;
      |n.columns| <= |m.columns| && m.columns[..|n.columns|] == n.columns && |m.columns| > 0
  {
    var m := InnerJoin(n, v, VariantKeys).value;
    LeftNamesUnchanged(n.columns, v.columns, VariantKeys);
    assert m.columns == n.columns + RightNames(Without(v.columns, VariantKeys), n.columns);
    assert "chr" in n.columns;
  }
}
