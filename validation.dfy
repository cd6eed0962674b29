/**
 * The default hg38 validation database: `validate` adds a 0/1 column named
 * after the database that marks the table rows whose key occurs in the
 * database, `run_validation` loads and pre-processes the database first, and
 * the `instructions` dict wires them up. Only the column naming and the
 * meta-line filter of `upload_vcf` are modelled; reading the gzip file is not.
 */
module Validation {
  import opened Wrappers
  import opened Text
  import opened Dicts
  import opened Columns
  import opened Frames
  import opened Sources

  // ------------------------------------------------------------- validate

  /** The first name of `required`, in order, that `present` lacks. */
  function FirstMissing(required: seq<string>, present: seq<string>): (r: Option<string>)
    ensures r.None? <==> forall c :: c in required ==> c in present
    ensures forall i :: 0 <= i < |required| && required[i] !in present && (forall j :: 0 <= j < i ==> required[j] in present)
              ==> r == Some(required[i])
  {
    if |required| == 0 then None
    else if required[0] !in present then Some(required[0])
    else
      var r := FirstMissing(required[1..], present);
      assert forall c :: c in required ==> c == required[0] || c in required[1..];
      assert forall i :: 0 < i < |required| ==> required[1..][i - 1] == required[i];
      r
  }

  /**
   * What `validate` leaves in the table when it completes, as written:
   * `df[name] = 0`, then `df.loc[m, name] = 1` where `m` is the `_merge`
   * column of the left merge with the database, read against the table's
   * 0..n-1 index (so its first n entries are used).
   */
  function ValidatedAsWritten(f: Frame, ref: seq<Row>, keys: seq<string>, name: string): Frame {
    var z := Fill(f, name, Int(0));
    LocSet(z, LeftMergeIndicator(z.rows, ref, keys)[..|z.rows|], name, Int(1))
  }

  /** What `validate` is meant to leave: 1 exactly on the rows whose key occurs in the database, 0 elsewhere. */
  function Validated(f: Frame, ref: seq<Row>, keys: seq<string>, name: string): Frame {
    var z := Fill(f, name, Int(0));
    LocSet(z, KeyPresence(z.rows, keys, ref), name, Int(1))
  }

  /** The table after `validate` and the exception it raised, if any. */
  datatype Checked = Checked(frame: Frame, error: Option<Error>)

  /**
   * `validate(db, df)`: a ValueError for the first missing key column before
   * anything changes; otherwise the 0-fill happens, then the merge fails
   * (no database loaded, or a key column missing in it) or the 1s are set as
   * written, from the positional reading of the merge indicator. When the
   * database's keys do not repeat, that is the intended marking `Validated`:
   * 1 exactly on the rows whose key occurs in the database.
   */
  function ValidateEffect(f: Frame, keys: seq<string>, name: string, ref: Option<Table>): (e: Checked)
    ensures e.error.None? <==> (forall c :: c in keys ==> c in f.columns) && ref.Some? && (forall c :: c in keys ==> c in ref.value.columns)
    ensures FirstMissing(keys, f.columns).Some? ==> e.frame == f
    ensures FirstMissing(keys, f.columns).Some? ==> e.error == Some(ValueError("Missing required column: " + FirstMissing(keys, f.columns).value))
    ensures FirstMissing(keys, f.columns).None? && ref.None? ==> e.error == Some(TypeError("Can only merge Series or DataFrame objects"))
    ensures FirstMissing(keys, f.columns).None? && ref.Some? && !(forall c :: c in keys ==> c in ref.value.columns) ==> e.error == Some(KeyError(Without(keys, ref.value.columns)))
    ensures FirstMissing(keys, f.columns).None? ==> e.frame.columns == Fill(f, name, Int(0)).columns
    ensures forall c :: c in f.columns ==> c in e.frame.columns
    ensures e.error.None? ==> name in e.frame.columns
    ensures e.error.None? ==> e.frame == ValidatedAsWritten(f, ref.value.rows, keys, name)
    ensures e.error.None? && UniqueKeys(ref.value.rows, keys) ==> e.frame == Validated(f, ref.value.rows, keys, name)
  {
    match FirstMissing(keys, f.columns)
    case Some(c) => Checked(f, Some(ValueError("Missing required column: " + c)))
    case None =>
      var z := Fill(f, name, Int(0));
      if ref.None? then Checked(z, Some(TypeError("Can only merge Series or DataFrame objects")))
      else if !(forall c :: c in keys ==> c in ref.value.columns) then Checked(z, Some(KeyError(Without(keys, ref.value.columns))))
      else
        var g := ValidatedAsWritten(f, ref.value.rows, keys, name);
        assert UniqueKeys(ref.value.rows, keys) ==> g == Validated(f, ref.value.rows, keys, name) by {
          if UniqueKeys(ref.value.rows, keys) {
            AsWrittenAgreesWhenUnique(f, ref.value.rows, keys, name);
          }
        }
        Checked(g, None)
  }

  /** `validate` writes only the column named after the database: every other cell stays as it was. */
  lemma ValidateKeepsOtherCells(f: Frame, keys: seq<string>, name: string, ref: Option<Table>, i: nat, c: string)
    requires i < |f.rows| && c != name
    ensures |ValidateEffect(f, keys, name, ref).frame.rows| == |f.rows|
    ensures Get(ValidateEffect(f, keys, name, ref).frame.rows[i], c) == Get(f.rows[i], c)
  {
    var z := Fill(f, name, Int(0));
    AssignKeepsOtherColumns(f, name, seq(|f.rows|, _ => Int(0)), i, c);
  }

  /** Filling a column keeps the key tuples when the column is not a key column. */
  lemma FillKeepsKeys(f: Frame, name: string, v: Cell, keys: seq<string>)
    requires name !in keys
    ensures |Fill(f, name, v).rows| == |f.rows|
    ensures forall i :: 0 <= i < |f.rows| ==> KeyOf(Fill(f, name, v).rows[i], keys) == KeyOf(f.rows[i], keys)
  {
    var z := Fill(f, name, v);
    forall i | 0 <= i < |f.rows| ensures KeyOf(z.rows[i], keys) == KeyOf(f.rows[i], keys) {
      forall k | 0 <= k < |keys| ensures Get(z.rows[i], keys[k]) == Get(f.rows[i], keys[k]) {
        AssignKeepsOtherColumns(f, name, seq(|f.rows|, _ => v), i, keys[k]);
      }
    }
  }

  /**
   * The corrected pass: the column `name` is added if absent, row i holds 1
   * if its key occurs in the database and 0 otherwise, and no other cell changes.
   */
  lemma ValidatedMarksPresentKeys(f: Frame, ref: seq<Row>, keys: seq<string>, name: string, i: nat, c: string)
    requires name !in keys && i < |f.rows|
    ensures var g := Validated(f, ref, keys, name);
      g.columns == (if name in f.columns then f.columns else f.columns + [name]) && |g.rows| == |f.rows|
    ensures Get(Validated(f, ref, keys, name).rows[i], name)
              == if KeyOf(f.rows[i], keys) in KeySet(ref, keys) then Int(1) else Int(0)
    ensures c != name ==> Get(Validated(f, ref, keys, name).rows[i], c) == Get(f.rows[i], c)
  {
    var z := Fill(f, name, Int(0));
    FillKeepsKeys(f, name, Int(0), keys);
    if c != name {
      AssignKeepsOtherColumns(f, name, seq(|f.rows|, _ => Int(0)), i, c);
    }
  }

  /** With repeat-free keys in the database, the pass as written is the corrected pass. */
  lemma AsWrittenAgreesWhenUnique(f: Frame, ref: seq<Row>, keys: seq<string>, name: string)
    requires UniqueKeys(ref, keys)
    ensures ValidatedAsWritten(f, ref, keys, name) == Validated(f, ref, keys, name)
  {
    var z := Fill(f, name, Int(0));
    IndicatorOfUniqueKeys(z.rows, ref, keys);
    assert LeftMergeIndicator(z.rows, ref, keys)[..|z.rows|] == KeyPresence(z.rows, keys, ref);
  }

  /**
   * As written, a database holding one key twice marks the wrong row: for the
   * table [A, B] and the database [A, A] the merge indicator is
   * [both, both, left_only], whose first two entries mark B, which the
   * database does not hold.
   */
  lemma AsWrittenMismarks()
    ensures var a := map["k" := Str("A")];
      var b := map["k" := Str("B")];
      var g := ValidatedAsWritten(Frame(["k"], [a, b]), [a, a], ["k"], "v");
      |g.rows| == 2 && Get(g.rows[1], "v") == Int(1) && KeyOf(b, ["k"]) !in KeySet([a, a], ["k"])
  {
    var a := map["k" := Str("A")];
    var b := map["k" := Str("B")];
    var f := Frame(["k"], [a, b]);
    var z := Fill(f, "v", Int(0));
    FillKeepsKeys(f, "v", Int(0), ["k"]);
    assert KeyOf(a, ["k"]) == [Str("A")] && KeyOf(b, ["k"]) == [Str("B")];
    assert KeyOf(z.rows[0], ["k"]) == [Str("A")];
    assert KeyOf(z.rows[1], ["k"]) == [Str("B")];
    assert |Matches(z.rows[0], [a, a], ["k"])| == 2 by {
      assert Matches(z.rows[0], [a], ["k"]) == [a];
      assert [a, a][1..] == [a];
    }
    assert z.rows[1..][0] == z.rows[1];
    assert LeftMergeIndicator(z.rows, [a, a], ["k"])[..2] == [true, true];
    assert KeySet([a, a], ["k"]) == {[Str("A")]};
  }

  /** Filling the column again undoes the 1s: the second run starts from the same 0-filled table. */
  lemma RefillIsFill(f: Frame, mask: seq<bool>, name: string)
    requires |mask| == |f.rows|
    ensures var z := Fill(f, name, Int(0));
      |Fill(LocSet(z, mask, name, Int(1)), name, Int(0)).rows| == |z.rows| && Fill(LocSet(z, mask, name, Int(1)), name, Int(0)) == z
  {
    var z := Fill(f, name, Int(0));
    var w := Fill(LocSet(z, mask, name, Int(1)), name, Int(0));
    assert name in z.columns;
    forall i | 0 <= i < |z.rows| ensures w.rows[i] == z.rows[i] {
      if |f.rows| > 0 {
        assert z.rows[i] == f.rows[i][name := Int(0)];
      }
    }
  }

  /** Running `validate` twice leaves the same table as running it once. */
  lemma ValidateIdempotent(f: Frame, ref: seq<Row>, keys: seq<string>, name: string)
    ensures ValidatedAsWritten(ValidatedAsWritten(f, ref, keys, name), ref, keys, name) == ValidatedAsWritten(f, ref, keys, name)
  {
    var z := Fill(f, name, Int(0));
    var mask := LeftMergeIndicator(z.rows, ref, keys)[..|z.rows|];
    var g := ValidatedAsWritten(f, ref, keys, name);
    RefillIsFill(f, mask, name);
    assert Fill(g, name, Int(0)) == z;
  }

  /** The corrected pass is idempotent too. */
  lemma ValidatedIdempotent(f: Frame, ref: seq<Row>, keys: seq<string>, name: string)
    ensures Validated(Validated(f, ref, keys, name), ref, keys, name) == Validated(f, ref, keys, name)
  {
    var z := Fill(f, name, Int(0));
    RefillIsFill(f, KeyPresence(z.rows, keys, ref), name);
    assert Fill(Validated(f, ref, keys, name), name, Int(0)) == z;
  }

  /** `validate(db, df)`: changes the caller's frame and returns that same object. */
  method Validate(db: SourceDb, df: DataFrame) returns (r: Result<DataFrame>)
    requires df.Valid()
    modifies df
    ensures df.Valid()
    ensures var e := ValidateEffect(old(df.Snapshot()), db.keyCols, db.name, db.df);
      df.Snapshot() == e.frame && (r.Ok? <==> e.error.None?) && (r.Err? ==> e.error == Some(r.error))
    ensures r.Ok? ==> r.value == df
  {
    var i := 0;
    while i < |db.keyCols|
      invariant 0 <= i <= |db.keyCols|
      invariant forall j :: 0 <= j < i ==> db.keyCols[j] in df.columns
    {
      if db.keyCols[i] !in df.columns {
        return Err(ValueError("Missing required column: " + db.keyCols[i]));
      }
      i := i + 1;
    }
    df.FillColumn(db.name, Int(0));
    if db.df.None? {
      return Err(TypeError("Can only merge Series or DataFrame objects"));
    }
    var ref := db.df.value;
    if !(forall c :: c in db.keyCols ==> c in ref.columns) {
      return Err(KeyError(Without(db.keyCols, ref.columns)));
    }
    df.SetWhere(LeftMergeIndicator(df.rows, ref.rows, db.keyCols)[..|df.rows|], db.name, Int(1));
    return Ok(df);
  }

  /** `run_validation(db, df)`: load the database, pre-process it, then validate. */
  method RunValidation(db: SourceDb, df: DataFrame) returns (r: Result<DataFrame>)
    requires df.Valid()
    modifies db, df
    ensures df.Valid() && db.df == Some(db.preProcessor(db.raw))
    ensures var e := ValidateEffect(old(df.Snapshot()), db.keyCols, db.name, Some(db.preProcessor(db.raw)));
      df.Snapshot() == e.frame && (r.Ok? <==> e.error.None?) && (r.Err? ==> e.error == Some(r.error))
    ensures r.Ok? ==> r.value == df
  {
    db.UploadDb();
    db.PreProcess();
    r := Validate(db, df);
  }

  // ---------------------------------------------------------- instructions

  datatype ValidatorFn = ValidateFn | RunValidationFn

  /** The values of the `instructions` dict; functions are named, not called. */
  datatype Entry =
    | KeyColsEntry(cols: seq<string>)
    | DescriptionEntry(text: string)
    | ValidatorEntry(validator: ValidatorFn)
    | PreProcessorEntry
    | UploadEntry

  /** The dict literal as written, with its repeated "validator" key. */
  function InstructionsLiteral(): seq<(string, Entry)> {
    [("key_cols", KeyColsEntry(["chr", "pos", "ref", "alt"])),
     ("description", DescriptionEntry("Default database for validation")),
     ("validator", ValidatorEntry(ValidateFn)),
     ("pre_processor", PreProcessorEntry),
     ("upload_function", UploadEntry),
     ("validator", ValidatorEntry(RunValidationFn))]
  }

  function Instructions(): map<string, Entry> {
    FromPairs(InstructionsLiteral())
  }

  /** Five keys survive, and the later "validator" entry, run_validation, is the one in effect. */
  lemma EffectiveInstructions()
    ensures Instructions().Keys == {"key_cols", "description", "validator", "pre_processor", "upload_function"}
    ensures Instructions()["validator"] == ValidatorEntry(RunValidationFn)
    ensures Instructions()["key_cols"] == KeyColsEntry(["chr", "pos", "ref", "alt"])
  {
    InstructionKeys();
    var lit := InstructionsLiteral();
    assert LastWithKey(lit, "validator", 5);
    KeyColsEntryInEffect();
  }

  /** The keys of the dict: the distinct keys of the literal. */
  lemma InstructionKeys()
    ensures Instructions().Keys == {"key_cols", "description", "validator", "pre_processor", "upload_function"}
  {
    var lit := InstructionsLiteral();
    assert lit[0].0 == "key_cols" && lit[1].0 == "description" && lit[2].0 == "validator";
    assert lit[3].0 == "pre_processor" && lit[4].0 == "upload_function";
    forall k | HasKey(lit, k) ensures k in {"key_cols", "description", "validator", "pre_processor", "upload_function"} {
      var i :| 0 <= i < |lit| && lit[i].0 == k;
    }
  }

  /** "key_cols" occurs once in the literal, so its entry is the one in effect. */
  lemma KeyColsEntryInEffect()
    ensures "key_cols" in Instructions() && Instructions()["key_cols"] == KeyColsEntry(["chr", "pos", "ref", "alt"])
  {
    var lit := InstructionsLiteral();
    forall j | 0 < j < |lit| ensures lit[j].0 != "key_cols" {
      assert lit[j].0[0] != 'k';
    }
    assert LastWithKey(lit, "key_cols", 0);
  }

  // ------------------------------------------------------------ upload_vcf

  /** The header names of a VCF file's fixed columns. */
  const VcfHeader: seq<string> := ["#CHROM", "POS", "ID", "REF", "ALT", "QUAL", "FILTER", "INFO"]

  /** The names `upload_vcf` gives the columns: "chr", then the remaining header names in lower case. */
  function VcfColumnNames(): seq<string> {
    ["chr"] + seq(|VcfHeader| - 1, i requires 0 <= i < |VcfHeader| - 1 => Lower(VcfHeader[i + 1]))
  }

  lemma VcfColumnNamesValue()
    ensures VcfColumnNames() == ["chr", "pos", "id", "ref", "alt", "qual", "filter", "info"]
  {
    assert Lower("POS") == "pos";
    assert Lower("ID") == "id";
    assert Lower("REF") == "ref";
    assert Lower("ALT") == "alt";
    assert Lower("QUAL") == "qual";
    assert Lower("FILTER") == "filter";
    assert Lower("INFO") == "info";
  }

  /** The lines that do not start with "##", in their order. */
  function DropMetaLines(lines: seq<string>): (kept: seq<string>)
    ensures |kept| <= |lines|
    ensures forall l :: l in kept <==> l in lines && !StartsWith(l, "##")
  {
    if |lines| == 0 then []
    else
      var rest := DropMetaLines(lines[1..]);
      assert forall l :: l in lines <==> l == lines[0] || l in lines[1..];
      if StartsWith(lines[0], "##") then rest else [lines[0]] + rest
  }
}
