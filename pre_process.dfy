/**
 * The hg37 variants source's pre-processing (pre_process.py): `pre_process`,
 * which the source registers and which hands the frame back unchanged, and
 * `lift_over`, which converts the caller's 1-based positions to half-open
 * [start, end) spans, prefixes the chromosome names, sends a copy to the
 * liftOver shell script and converts the lifted rows back. The script and
 * the files it reads and writes are a parameter: what the run came to.
 */
module Hg37PreProcess {
  import opened Wrappers
  import opened Text
  import opened Frames
  import opened Casts
  import opened Vep

  /** `pre_process(data)`: the frame itself. */
  function PreProcess(data: Frame): (r: Frame)
    ensures r == data
  {
    data
  }

  // ------------------------------------------------------ the caller's frame

  /** `df['start'] = df['pos'].astype(int) - 1`: 0-based starts. */
  function StartCells(poss: seq<int>): (vals: seq<Cell>)
    ensures |vals| == |poss| && forall i :: 0 <= i < |poss| ==> vals[i] == Int(poss[i] - 1)
  {
    seq(|poss|, i requires 0 <= i < |poss| => Int(poss[i] - 1))
  }

  /** `df['end'] = df['start'] + df['ref'].str.len()`; a reference that is not text has no length and gives NaN. */
  function EndCell(start: Cell, ref: Cell): Cell {
    if start.Int? && ref.Str? then Int(start.i + |ref.s|) else Null
  }

  /** The column end, from the columns start and ref. */
  function EndCells(f: Frame): (vals: seq<Cell>)
    ensures |vals| == |f.rows| && forall i :: 0 <= i < |f.rows| ==> vals[i] == EndCell(Get(f.rows[i], "start"), Get(f.rows[i], "ref"))
  {
    seq(|f.rows|, i requires 0 <= i < |f.rows| => EndCell(Get(f.rows[i], "start"), Get(f.rows[i], "ref")))
  }

  /** `df['chr'] = 'chr' + df['chr']`: NaN stays NaN, a number cannot be added to text. */
  function PrefixedChr(c: Cell): Result<Cell> {
    match c
    case Str(s) => Ok(Str("chr" + s))
    case Null => Ok(Null)
    case _ => Err(TypeError("can only concatenate str (not \"int\") to str"))
  }

  /** The column `chr` prefixed, or the TypeError of the first cell that is a number. */
  function PrefixedChrColumn(f: Frame): (r: Result<seq<Cell>>)
    ensures r.Ok? <==> forall i :: 0 <= i < |f.rows| ==> PrefixedChr(Get(f.rows[i], "chr")).Ok?
    ensures r.Ok? ==> |r.value| == |f.rows| && forall i :: 0 <= i < |f.rows| ==> r.value[i] == PrefixedChr(Get(f.rows[i], "chr")).value
  {
    if exists i :: 0 <= i < |f.rows| && PrefixedChr(Get(f.rows[i], "chr")).Err? then
      Err(TypeError("can only concatenate str (not \"int\") to str"))
    else Ok(seq(|f.rows|, i requires 0 <= i < |f.rows| => PrefixedChr(Get(f.rows[i], "chr")).value))
  }

  /**
   * Lines 16-18 of `lift_over` on the caller's frame: the columns start, end
   * and chr are written in turn, and an exception leaves the columns written
   * before it.
   */
  function MarkSpans(f: Frame): (r: Normalised)
    ensures r.error.None? ==> "pos" in f.columns && "ref" in f.columns && "chr" in f.columns
    ensures |r.frame.rows| == |f.rows| || |f.rows| == 0
  {
    if "pos" !in f.columns then Normalised(f, Some(KeyError(["pos"])))
    else match IntColumn(f, "pos")
      case Err(e) => Normalised(f, Some(e))
      case Ok(poss) =>
        var f1 := Assign(f, "start", StartCells(poss));
        if "ref" !in f1.columns then Normalised(f1, Some(KeyError(["ref"])))
        else
          var f2 := Assign(f1, "end", EndCells(f1));
          if "chr" !in f2.columns then Normalised(f2, Some(KeyError(["chr"])))
          else match PrefixedChrColumn(f2)
            case Err(e) => Normalised(f2, Some(e))
            case Ok(chrs) => Normalised(Assign(f2, "chr", chrs), None)
  }

  /**
   * After a complete pass each row has start = pos - 1 and, where ref is
   * text, end = start + len(ref): the span [start, end) covers exactly the
   * reference bases. The chromosome carries the "chr" prefix, and every
   * other column is as it was.
   */
  lemma MarkSpansCells(f: Frame, i: nat, c: string)
    requires MarkSpans(f).error.None? && i < |f.rows|
    ensures var g := MarkSpans(f).frame;
      var pos := CellToInt(Get(f.rows[i], "pos"));
      && |g.rows| == |f.rows| && pos.Some?
      && Get(g.rows[i], "start") == Int(pos.value - 1)
      && Get(g.rows[i], "end") == (if Get(f.rows[i], "ref").Str? then Int(pos.value - 1 + |Get(f.rows[i], "ref").s|) else Null)
      && Get(g.rows[i], "chr") == PrefixedChr(Get(f.rows[i], "chr")).value
      && (c !in ["start", "end", "chr"] ==> Get(g.rows[i], c) == Get(f.rows[i], c))
  {
    var poss := IntColumn(f, "pos").value;
    var f1 := Assign(f, "start", StartCells(poss));
    var ends := EndCells(f1);
    var f2 := Assign(f1, "end", ends);
    var chrs := PrefixedChrColumn(f2).value;
    AssignKeepsOtherColumns(f, "start", StartCells(poss), i, "ref");
    AssignKeepsOtherColumns(f1, "end", ends, i, "start");
    AssignKeepsOtherColumns(f, "start", StartCells(poss), i, "chr");
    AssignKeepsOtherColumns(f1, "end", ends, i, "chr");
    AssignKeepsOtherColumns(f2, "chr", chrs, i, "start");
    AssignKeepsOtherColumns(f2, "chr", chrs, i, "end");
    if c !in ["start", "end", "chr"] {
      AssignKeepsOtherColumns(f, "start", StartCells(poss), i, c);
      AssignKeepsOtherColumns(f1, "end", ends, i, c);
      AssignKeepsOtherColumns(f2, "chr", chrs, i, c);
    }
  }

  /** The columns a completed pass leaves: start and end added after the existing ones, unless already there. */
  lemma MarkSpansColumns(f: Frame)
    requires MarkSpans(f).error.None?
    ensures var g := MarkSpans(f).frame;
      forall c :: c in g.columns <==> c in f.columns || c == "start" || c == "end"
  {
  }

  // --------------------------------------------------------------- the copy

  /** One row of the file the script reads and writes: chr, start, end, ref, alt. */
  datatype SpanRow = SpanRow(chr: string, start: int, end: int, ref: Cell, alt: Cell)

  /** `df[['chr', 'start', 'end', 'ref', 'alt']].copy()` with chr as text and start, end as integers. */
  function SpanRows(g: Frame): (r: Result<seq<SpanRow>>)
    ensures r.Ok? ==> |r.value| == |g.rows|
  {
    if "alt" !in g.columns then Err(KeyError(["alt"]))
    else if exists i :: 0 <= i < |g.rows| && !(Get(g.rows[i], "start").Int? && Get(g.rows[i], "end").Int?) then
      Err(ValueError("Cannot convert non-finite values (NA or inf) to integer"))
    else Ok(seq(|g.rows|, i requires 0 <= i < |g.rows| =>
      SpanRow(CellText(Get(g.rows[i], "chr")), Get(g.rows[i], "start").i, Get(g.rows[i], "end").i,
              Get(g.rows[i], "ref"), Get(g.rows[i], "alt"))))
  }

  /** What running the liftOver script came to. */
  datatype LiftRun =
    | ScriptMissing
    | ChainMissing
    | ProcessFailed(exitCode: int)
    | EmptyPath
    | Lifted(rows: seq<SpanRow>)

  /** The columns `lift_over` returns. */
  const OutputColumns: seq<string> := ["chr", "pos", "ref", "alt"]

  /** Lines 68-73: "chr" removed from the name, start back to a 1-based position written as text. */
  function Restore(l: SpanRow): (r: Row)
    ensures r.Keys == {"chr", "pos", "ref", "alt"}
  {
    map["chr" := Str(RemoveAll(l.chr, "chr")), "pos" := Str(IntToString(l.start + 1)), "ref" := l.ref, "alt" := l.alt]
  }

  /** The caller's frame after `lift_over`, and its return value or exception. */
  datatype LiftOutcome = LiftOutcome(df: Frame, result: Result<Frame>)

  /**
   * `lift_over(df)` when the script, given the copied rows, comes to
   * `lift(rows)`. A missing script or chain file, or a failed run, is only
   * printed, so `result_path` is never bound and reading it raises
   * UnboundLocalError; an empty path raises ValueError.
   */
  function LiftOverEffect(f: Frame, lift: seq<SpanRow> -> LiftRun): LiftOutcome {
    var m := MarkSpans(f);
    if m.error.Some? then LiftOutcome(m.frame, Err(m.error.value))
    else match SpanRows(m.frame)
      case Err(e) => LiftOutcome(m.frame, Err(e))
      case Ok(rows) =>
        match lift(rows)
        case EmptyPath => LiftOutcome(m.frame, Err(ValueError("LiftOver script did not return a valid file path.")))
        case Lifted(out) =>
          LiftOutcome(m.frame, Ok(Restored(out)))
        case _ => LiftOutcome(m.frame, Err(UnboundLocalError("result_path")))
  }

  /** Lines 16-18 of `lift_over`, on the caller's frame. */
  method MarkSpansInPlace(df: DataFrame) returns (err: Option<Error>)
    requires df.Valid()
    modifies df
    ensures df.Valid()
    ensures df.Snapshot() == MarkSpans(old(df.Snapshot())).frame && err == MarkSpans(old(df.Snapshot())).error
  {
    if "pos" !in df.columns {
      return Some(KeyError(["pos"]));
    }
    var poss := IntColumn(df.Snapshot(), "pos");
    if poss.Err? {
      return Some(poss.error);
    }
    df.AssignColumn("start", StartCells(poss.value));
    if "ref" !in df.columns {
      return Some(KeyError(["ref"]));
    }
    df.AssignColumn("end", EndCells(df.Snapshot()));
    if "chr" !in df.columns {
      return Some(KeyError(["chr"]));
    }
    var chrs := PrefixedChrColumn(df.Snapshot());
    if chrs.Err? {
      return Some(chrs.error);
    }
    df.AssignColumn("chr", chrs.value);
    return None;
  }

  /** The lifted rows converted back, as `lift_over` returns them. */
  function Restored(out: seq<SpanRow>): (g: Frame)
    ensures g.columns == OutputColumns && |g.rows| == |out|
    ensures forall i :: 0 <= i < |out| ==> g.rows[i] == Restore(out[i])
  {
    Frame(OutputColumns, seq(|out|, i requires 0 <= i < |out| => Restore(out[i])))
  }

  /** `lift_over(df)`, with the liftOver script as `lift`. */
  method LiftOver(df: DataFrame, lift: seq<SpanRow> -> LiftRun) returns (r: Result<Frame>)
    requires df.Valid()
    modifies df
    ensures df.Valid()
    ensures df.Snapshot() == LiftOverEffect(old(df.Snapshot()), lift).df
    ensures r == LiftOverEffect(old(df.Snapshot()), lift).result
  {
    var err := MarkSpansInPlace(df);
    if err.Some? {
      return Err(err.value);
    }
    var spans := SpanRows(df.Snapshot());
    if spans.Err? {
      return Err(spans.error);
    }
    match lift(spans.value)
    case EmptyPath => r := Err(ValueError("LiftOver script did not return a valid file path."));
    case Lifted(out) => r := Ok(Restored(out));
    case _ => r := Err(UnboundLocalError("result_path"));
  }

  /** The result of a completed `lift_over` has exactly the columns chr, pos, ref, alt, in that order. */
  lemma LiftOverShape(f: Frame, lift: seq<SpanRow> -> LiftRun)
    requires LiftOverEffect(f, lift).result.Ok?
    ensures WellFormed(LiftOverEffect(f, lift).result.value)
  {
    var rows := SpanRows(MarkSpans(f).frame).value;
    assert LiftOverEffect(f, lift).result.value == Restored(lift(rows).rows);
    RestoredWellFormed(lift(rows).rows);
  }

  /** The converted rows form a rectangular frame without repeated columns. */
  lemma RestoredWellFormed(out: seq<SpanRow>)
    ensures WellFormed(Restored(out))
  {
    assert ColumnSet(OutputColumns) == {"chr", "pos", "ref", "alt"};
  }

  /** A liftOver run that gives back the rows it was sent. */
  function MovesNothing(rows: seq<SpanRow>): LiftRun {
    Lifted(rows)
  }

  /**
   * With a liftOver that moves nothing, `lift_over` gives back each row's
   * position, its chromosome name when that name does not contain "chr",
   * and its ref and alt.
   */
  lemma LiftOverRoundTrip(f: Frame, i: nat, pos: int, chr: string)
    requires LiftOverEffect(f, MovesNothing).result.Ok? && i < |f.rows|
    requires Get(f.rows[i], "pos") == Str(IntToString(pos)) && Get(f.rows[i], "chr") == Str(chr) && !Contains(chr, "chr")
    ensures var out := LiftOverEffect(f, MovesNothing).result.value;
      && |out.rows| == |f.rows|
      && Get(out.rows[i], "pos") == Get(f.rows[i], "pos")
      && Get(out.rows[i], "chr") == Get(f.rows[i], "chr")
      && Get(out.rows[i], "ref") == Get(f.rows[i], "ref")
      && Get(out.rows[i], "alt") == Get(f.rows[i], "alt")
  {
    IdentityLiftUnfolds(f);
    CopiedRowOf(f, i, pos, chr);
    var s := SpanRows(MarkSpans(f).frame).value;
    RestoreCells(s[i]);
    RemoveAllOfPrefixed(chr, "chr");
  }

  /** The cells of a converted row. */
  lemma RestoreCells(l: SpanRow)
    ensures Get(Restore(l), "chr") == Str(RemoveAll(l.chr, "chr")) && Get(Restore(l), "pos") == Str(IntToString(l.start + 1))
    ensures Get(Restore(l), "ref") == l.ref && Get(Restore(l), "alt") == l.alt
  {
  }

  /** The copied row of a completed pass: the 0-based start, the prefixed name, ref and alt as they were. */
  lemma CopiedRowOf(f: Frame, i: nat, pos: int, chr: string)
    requires MarkSpans(f).error.None? && SpanRows(MarkSpans(f).frame).Ok? && i < |f.rows|
    requires Get(f.rows[i], "pos") == Str(IntToString(pos)) && Get(f.rows[i], "chr") == Str(chr)
    ensures var s := SpanRows(MarkSpans(f).frame).value;
      && |s| == |f.rows|
      && s[i].start == pos - 1 && s[i].chr == "chr" + chr
      && s[i].ref == Get(f.rows[i], "ref") && s[i].alt == Get(f.rows[i], "alt")
  {
    CopiedRowCells(f, i);
    ParseIntOfIntToString(pos);
  }

  /** The copied row of a completed pass, in terms of the caller's cells. */
  lemma CopiedRowCells(f: Frame, i: nat)
    requires MarkSpans(f).error.None? && SpanRows(MarkSpans(f).frame).Ok? && i < |f.rows|
    ensures var s := SpanRows(MarkSpans(f).frame).value;
      && |s| == |f.rows| && CellToInt(Get(f.rows[i], "pos")).Some?
      && s[i].start == CellToInt(Get(f.rows[i], "pos")).value - 1
      && s[i].chr == CellText(PrefixedChr(Get(f.rows[i], "chr")).value)
      && s[i].ref == Get(f.rows[i], "ref") && s[i].alt == Get(f.rows[i], "alt")
  {
    var g := MarkSpans(f).frame;
    MarkSpansCells(f, i, "ref");
    MarkSpansCells(f, i, "alt");
    SpanRowAt(g, i);
  }

  /** With a liftOver that moves nothing, the result is the copied rows converted back. */
  lemma IdentityLiftUnfolds(f: Frame)
    requires LiftOverEffect(f, MovesNothing).result.Ok?
    ensures MarkSpans(f).error.None? && SpanRows(MarkSpans(f).frame).Ok?
    ensures LiftOverEffect(f, MovesNothing).result.value == Restored(SpanRows(MarkSpans(f).frame).value)
  {
  }

  /** A copied row holds its frame row's cells. */
  lemma SpanRowAt(g: Frame, i: nat)
    requires SpanRows(g).Ok? && i < |g.rows|
    ensures var s := SpanRows(g).value[i];
      && Int(s.start) == Get(g.rows[i], "start") && Int(s.end) == Get(g.rows[i], "end")
      && s.chr == CellText(Get(g.rows[i], "chr")) && s.ref == Get(g.rows[i], "ref") && s.alt == Get(g.rows[i], "alt")
  {
  }
}
