/**
 * The hg38 variants source's `vep_annotations(df)`. It hands the caller's
 * rows to the VEP shell wrapper, parses the result file, spreads every tag
 * of the Extra column into a column of its own (the first value of a tag
 * wins), rewrites the join keys on both sides as stripped strings (the
 * caller's in place), and returns the inner merge as a new frame.
 */
module Hg38Annotations {
  import opened Wrappers
  import opened Dicts
  import opened Columns
  import opened Frames
  import opened Sources
  import opened Vep
  import opened ExtendedTables

  // ------------------------------------------------------------ the pivot

  /** The value of the first pair whose key is `k` (`aggfunc="first"`). */
  function FirstWithKey(pairs: seq<(string, string)>, k: string): (r: Option<string>)
    ensures r.Some? <==> HasKey(pairs, k)
    ensures r.Some? ==> exists i :: 0 <= i < |pairs| && pairs[i] == (k, r.value) && forall j :: 0 <= j < i ==> pairs[j].0 != k
    decreases |pairs|
  {
    if |pairs| == 0 then None
    else if pairs[0].0 == k then Some(pairs[0].1)
    else
      var r := FirstWithKey(pairs[1..], k);
      if r.Some? then
        var i :| 0 <= i < |pairs[1..]| && pairs[1..][i] == (k, r.value) && forall j :: 0 <= j < i ==> pairs[1..][j].0 != k;
        assert pairs[i + 1] == (k, r.value);
        r
      else
        assert !HasKey(pairs[1..], k);
        assert forall i :: 1 <= i < |pairs| ==> pairs[i] == pairs[1..][i - 1];
        r
  }

  /** The tag/value pairs of a row's Extra; a missing Extra (NaN) has none. */
  function PairsOf(r: Row): seq<(string, string)> {
    match Get(r, "Extra")
    case Str(s) => ExtraPairs(s)
    case _ => []
  }

  /** The keys of a list of pairs, in order. */
  function PairKeys(pairs: seq<(string, string)>): (ks: seq<string>)
    ensures forall k :: k in ks <==> HasKey(pairs, k)
    decreases |pairs|
  {
    if |pairs| == 0 then []
    else
      var ks := [pairs[0].0] + PairKeys(pairs[1..]);
      assert forall k :: HasKey(pairs[1..], k) ==> HasKey(pairs, k) by {
        forall k, i | 0 <= i < |pairs[1..]| && pairs[1..][i].0 == k ensures HasKey(pairs, k) {
          assert pairs[i + 1].0 == k;
        }
      }
      assert forall k :: HasKey(pairs, k) && k != pairs[0].0 ==> HasKey(pairs[1..], k) by {
        forall k | HasKey(pairs, k) && k != pairs[0].0 ensures HasKey(pairs[1..], k) {
          var i :| 0 <= i < |pairs| && pairs[i].0 == k;
          assert pairs[1..][i - 1].0 == k;
        }
      }
      ks
  }

  /** Every tag met in the Extra of some row, with repeats. */
  function AllTags(rows: seq<Row>): (ts: seq<string>)
    ensures forall t :: t in ts <==> exists i :: 0 <= i < |rows| && HasKey(PairsOf(rows[i]), t)
    decreases |rows|
  {
    if |rows| == 0 then []
    else
      var ts := PairKeys(PairsOf(rows[0])) + AllTags(rows[1..]);
      assert forall i :: 1 <= i < |rows| ==> rows[i] == rows[1..][i - 1];
      ts
  }

  /** The tag columns of the pivot: one per distinct tag, in sorted order. */
  function Tags(f: Frame): (ts: seq<string>)
    ensures Sorted(ts)
    ensures forall t :: t in ts <==> exists i :: 0 <= i < |f.rows| && HasKey(PairsOf(f.rows[i]), t)
  {
    Sort(FromKeys(AllTags(f.rows)))
  }

  /** A row with Extra replaced by one cell per tag: the tag's first value in the row, or NA. */
  function WideRow(r: Row, tags: seq<string>): Row {
    (r - {"Extra"}) + map t | t in tags :: NaCell(FirstWithKey(PairsOf(r), t))
  }

  /**
   * The Extra pivot: split Extra at `;`, each item at its first `=`, pivot on
   * the tag keeping the first value, and join the tag columns in place of
   * Extra. A missing Extra raises a KeyError and one without any text (all
   * NaN in a non-empty frame) an AttributeError from `.str`. When no item
   * anywhere holds `=`, the split has no value column and the pivot raises a
   * KeyError; a tag named like a remaining column makes the join raise a
   * ValueError.
   */
  function Pivot(f: Frame): (r: Result<Frame>)
    ensures r.Ok? <==> "Extra" in f.columns && |Tags(f)| > 0 && forall t :: t in Tags(f) ==> t !in Without(f.columns, ["Extra"])
    ensures "Extra" !in f.columns ==> r == Err(KeyError(["Extra"]))
    ensures "Extra" in f.columns && !StrAccessible(f, "Extra") ==> r == Err(AttributeError(StrAccessorMessage))
    ensures "Extra" in f.columns && StrAccessible(f, "Extra") && |Tags(f)| == 0 ==> r == Err(KeyError(["value"]))
    ensures r.Ok? ==> r.value.columns == Without(f.columns, ["Extra"]) + Tags(f) && |r.value.rows| == |f.rows|
  {
    var tags := Tags(f);
    if "Extra" !in f.columns then Err(KeyError(["Extra"]))
    else if !StrAccessible(f, "Extra") then Err(AttributeError(StrAccessorMessage))
    else if |tags| == 0 then Err(KeyError(["value"]))
    else if exists t :: t in tags && t in Without(f.columns, ["Extra"]) then
      Err(ValueError("columns overlap but no suffix specified"))
    else Ok(Frame(Without(f.columns, ["Extra"]) + tags, seq(|f.rows|, i requires 0 <= i < |f.rows| => WideRow(f.rows[i], tags))))
  }

  /** A tag can only come from a text Extra, so a frame with tags passes the `.str` check. */
  lemma TagsNeedText(f: Frame)
    requires |Tags(f)| > 0
    ensures StrAccessible(f, "Extra")
  {
    var t := Tags(f)[0];
    assert t in Tags(f);
    var i :| 0 <= i < |f.rows| && HasKey(PairsOf(f.rows[i]), t);
    assert Get(f.rows[i], "Extra").Str?;
  }

  /**
   * A pivoted row holds, for every tag, the tag's first value in that row's
   * Extra (NA when the row does not carry it), and every other column but
   * Extra as it was.
   */
  lemma PivotCells(f: Frame, i: nat, c: string)
    requires Pivot(f).Ok? && i < |f.rows| && c != "Extra"
    ensures c in Tags(f) ==> Get(Pivot(f).value.rows[i], c) == NaCell(FirstWithKey(PairsOf(f.rows[i]), c))
    ensures c !in Tags(f) ==> Get(Pivot(f).value.rows[i], c) == Get(f.rows[i], c)
  {
    TagsNeedText(f);
    assert Pivot(f).value.rows[i] == WideRow(f.rows[i], Tags(f));
    WideRowCell(f.rows[i], Tags(f), c);
  }

  /** A widened row reads a tag's first value under the tag, and the row's own cell elsewhere but Extra. */
  lemma WideRowCell(r: Row, tags: seq<string>, c: string)
    requires c != "Extra"
    ensures c in tags ==> Get(WideRow(r, tags), c) == NaCell(FirstWithKey(PairsOf(r), c))
    ensures c !in tags ==> Get(WideRow(r, tags), c) == Get(r, c)
  {
  }

  /** Two lists without repeats and without common names concatenate to a list without repeats. */
  lemma DistinctAppend(a: seq<string>, b: seq<string>)
    requires Distinct(a) && Distinct(b) && forall x :: x in b ==> x !in a
    ensures Distinct(a + b)
  {
    forall i, j | 0 <= i < j < |a + b| ensures (a + b)[i] != (a + b)[j] {
      if j < |a| {
      } else if i >= |a| {
        assert (a + b)[i] == b[i - |a|] && (a + b)[j] == b[j - |a|];
      } else {
        assert (a + b)[i] in a && (a + b)[j] == b[j - |a|];
      }
    }
  }

  /** A rectangular row widens to exactly the pivot's columns. */
  lemma WideRowKeys(r: Row, cols: seq<string>, tags: seq<string>)
    requires r.Keys == ColumnSet(cols)
    ensures WideRow(r, tags).Keys == ColumnSet(Without(cols, ["Extra"]) + tags)
  {
  }

  /** The pivot of a rectangular frame is rectangular. */
  lemma PivotWellFormed(f: Frame)
    requires WellFormed(f) && Pivot(f).Ok?
    ensures WellFormed(Pivot(f).value)
  {
    var g := Pivot(f).value;
    var tags := Tags(f);
    SortedIsDistinct(tags);
    DistinctAppend(Without(f.columns, ["Extra"]), tags);
    forall r | r in g.rows ensures r.Keys == ColumnSet(g.columns) {
      var k :| 0 <= k < |g.rows| && g.rows[k] == r;
      assert f.rows[k] in f.rows;
      WideRowKeys(f.rows[k], f.columns, tags);
    }
  }

  /** When a tag occurs at most once in a row, the pivot and `get_from_extra` read the same value. */
  lemma FirstAgreesWithLast(pairs: seq<(string, string)>, k: string)
    requires forall i, j :: 0 <= i < j < |pairs| && pairs[i].0 == k ==> pairs[j].0 != k
    ensures FirstWithKey(pairs, k) == (var d := FromPairs(pairs); if k in d then Some(d[k]) else None)
  {
    var r := FirstWithKey(pairs, k);
    if r.Some? {
      var i :| 0 <= i < |pairs| && pairs[i] == (k, r.value) && forall j :: 0 <= j < i ==> pairs[j].0 != k;
      assert LastWithKey(pairs, k, i);
    }
  }

  /** A repeated tag is where they part: the pivot keeps the first value, `get_from_extra` the last. */
  lemma FirstDiffersFromLast(k: string, a: string, b: string)
    requires Writable((k, a)) && Writable((k, b))
    ensures FirstWithKey(ExtraPairs(RenderExtra([(k, a), (k, b)])), k) == Some(a)
    ensures GetFromExtra(k, RenderExtra([(k, a), (k, b)])) == Some(b)
  {
    var pairs := [(k, a), (k, b)];
    ExtraPairsOfRender(pairs);
    GetFromExtraOfRender(pairs, k);
    assert LastWithKey(pairs, k, 1);
  }

  // ------------------------------------------------------------ the step

  /** A VEP result file as read: `read_csv` with the fourteen column names. */
  type VepFile = f: Frame | f.columns == VepColumns witness Frame(VepColumns, [])

  /** What running the VEP wrapper on the caller's rows came to. */
  datatype VepRun =
    | ScriptMissing(script: string)
    | WrapperFailed(exitCode: int)
    | ResultMissing(path: string)
    | Output(raw: VepFile)

  /** The VEP rows as they are merged: parsed, pivoted, the keys normalised. */
  function AnnotatedVep38(raw: VepFile): Result<Frame> {
    var parsed :- ParseVep(raw);
    var wide :- Pivot(parsed);
    Ok(NormaliseKeys(wide, VariantKeys).frame)
  }

  /** The caller's frame after `vep_annotations`, and its return value or exception. */
  datatype Annotated = Annotated(df: Frame, result: Result<Frame>)

  /**
   * `vep_annotations(df)` when the wrapper came to `run`: a missing script
   * raises FileNotFoundError and a failed or silent wrapper a RuntimeError,
   * all before the frame is touched; so do parse and pivot errors. Then the
   * caller's keys are normalised in place (a missing key raises a KeyError
   * with the earlier keys already rewritten) and the merge is returned.
   */
  function Vep38Effect(f: Frame, run: VepRun): Annotated {
    match run
    case ScriptMissing(script) => Annotated(f, Err(FileNotFoundError(script)))
    case WrapperFailed(code) => Annotated(f, Err(RuntimeError("VEP wrapper failed")))
    case ResultMissing(path) => Annotated(f, Err(RuntimeError("VEP finished but results file not found: " + path)))
    case Output(raw) =>
      match AnnotatedVep38(raw)
      case Err(e) => Annotated(f, Err(e))
      case Ok(v) =>
        var n := NormaliseKeys(f, VariantKeys);
        if n.error.Some? then Annotated(n.frame, Err(n.error.value))
        else Annotated(n.frame, InnerJoin(n.frame, v, VariantKeys))
  }

  /**
   * `vep_annotations(df)`, with the wrapper as `vep`: it sees the caller's
   * rows as they are on entry.
   */
  method VepAnnotations(df: DataFrame, vep: Frame -> VepRun) returns (r: Result<Frame>)
    requires df.Valid()
    modifies df
    ensures df.Valid()
    ensures df.Snapshot() == Vep38Effect(old(df.Snapshot()), vep(old(df.Snapshot()))).df
    ensures r == Vep38Effect(old(df.Snapshot()), vep(old(df.Snapshot()))).result
  {
    var run := vep(df.Snapshot());
    match run
    case ScriptMissing(script) => return Err(FileNotFoundError(script));
    case WrapperFailed(code) => return Err(RuntimeError("VEP wrapper failed"));
    case ResultMissing(path) => return Err(RuntimeError("VEP finished but results file not found: " + path));
    case Output(raw) =>
      var vepDf := AnnotatedVep38(raw);
      if vepDf.Err? {
        return Err(vepDf.error);
      }
      var err := NormaliseKeysInPlace(df, VariantKeys);
      if err.Some? {
        return Err(err.value);
      }
      r := InnerJoin(df.Snapshot(), vepDf.value, VariantKeys);
  }

  /** A completed `vep_annotations` parsed and pivoted the file, normalised every key and merged. */
  lemma Vep38Unfolds(f: Frame, run: VepRun)
    requires Vep38Effect(f, run).result.Ok?
    ensures run.Output? && AnnotatedVep38(run.raw).Ok? && NormaliseKeys(f, VariantKeys).error.None?
    ensures Vep38Effect(f, run).df == NormaliseKeys(f, VariantKeys).frame
    ensures Vep38Effect(f, run).result == InnerJoin(NormaliseKeys(f, VariantKeys).frame, AnnotatedVep38(run.raw).value, VariantKeys)
  {
  }

  /** What `vep_annotations` left behind is rectangular whenever the caller's frame was. */
  lemma Vep38WellFormed(f: Frame, run: VepRun)
    requires WellFormed(f)
    ensures WellFormed(Vep38Effect(f, run).df)
    ensures Vep38Effect(f, run).result.Ok? ==> WellFormed(Vep38Effect(f, run).result.value)
  {
    NormaliseKeysWellFormed(f, VariantKeys);
    var e := Vep38Effect(f, run);
    assert e.df == f || e.df == NormaliseKeys(f, VariantKeys).frame;
    if e.result.Ok? {
      Vep38Unfolds(f, run);
      InnerJoinWellFormed(NormaliseKeys(f, VariantKeys).frame, AnnotatedVep38(run.raw).value, VariantKeys);
    }
  }

  /** The function the source registers as its one annotation step, called on a batch as the merge engine calls it. */
  function Vep38Outcome(vep: Frame -> VepRun, t: Table): (o: StepOutcome)
    ensures o.Raised? <==> Vep38Effect(t, vep(t)).result.Err?
    ensures o.Done? ==> o.returned == Some(Vep38Effect(t, vep(t)).result.value) && o.mutated == Vep38Effect(t, vep(t)).df
  {
    Vep38WellFormed(t, vep(t));
    var e := Vep38Effect(t, vep(t));
    match e.result
    case Err(x) => Raised(x)
    case Ok(m) => Done(e.df, Some(m))
  }

  /**
   * Registered as the source's only step, `vep_annotations` makes the merge
   * engine continue with the returned merge, or stop with its exception.
   */
  lemma Vep38AsOnlyStep(vep: Frame -> VepRun, t: Table)
    ensures RunSteps(t, ["vep_annotations"], map["vep_annotations" := (b: Table) => Vep38Outcome(vep, b)])
      == Vep38Effect(t, vep(t)).result
  {
    var steps := map["vep_annotations" := (b: Table) => Vep38Outcome(vep, b)];
    assert ["vep_annotations"][1..] == [];
    assert steps["vep_annotations"](t) == Vep38Outcome(vep, t);
  }

  /**
   * A completed `vep_annotations` leaves the caller's frame normalised and
   * returns one row per pair of a normalised input row and a VEP row with the
   * same keys: a variant with k VEP lines gives k rows, one without a match none.
   */
  lemma Vep38Completed(f: Frame, raw: VepFile)
    requires Vep38Effect(f, Output(raw)).result.Ok?
    ensures AnnotatedVep38(raw).Ok? && NormaliseKeys(f, VariantKeys).error.None?
    ensures var n := NormaliseKeys(f, VariantKeys).frame;
      && Vep38Effect(f, Output(raw)).df == n
      && |Vep38Effect(f, Output(raw)).result.value.rows| == MatchCount(n.rows, AnnotatedVep38(raw).value.rows, VariantKeys)
  {
    Vep38Unfolds(f, Output(raw));
    InnerJoinCount(NormaliseKeys(f, VariantKeys).frame, AnnotatedVep38(raw).value, VariantKeys);
  }

  /**
   * A completed call leaves each of the caller's key cells as stripped text and
   * every other cell as it was.
   */
  lemma Vep38CallerCells(f: Frame, raw: VepFile, i: nat, c: string)
    requires Vep38Effect(f, Output(raw)).result.Ok? && i < |f.rows|
    ensures |Vep38Effect(f, Output(raw)).df.rows| == |f.rows|
    ensures var k := Get(Vep38Effect(f, Output(raw)).df.rows[i], c);
      && (c in VariantKeys ==> k.Str? && Text.Strip(k.s) == k.s)
      && (c !in VariantKeys ==> k == Get(f.rows[i], c))
  {
    Vep38Unfolds(f, Output(raw));
    NormalisedCell(f, VariantKeys, i, c);
  }
}
