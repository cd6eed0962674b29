/**
 * The source databases that the merge engine and the validation pass consume.
 * Only what extended_table.py and instructions.py use of them is modelled:
 * a name, a kind, key columns, the loaded frame `df` (or nothing), loading,
 * pre-processing and the named annotation steps. Reading the database file
 * is abstracted to the frame `raw` that the upload yields.
 */
module Sources {
  import opened Wrappers
  import opened Dicts
  import opened Frames

  /** A frame whose column names are unique and whose rows are rectangular. */
  type Table = f: Frame | WellFormed(f) witness Frame([], [])

  /** A list of column names without repeats. */
  type KeyList = s: seq<string> | Distinct(s) witness []

  /** VariantsDb, ValidationDb, or any other object passed where a database is expected. */
  datatype DbKind = VariantsKind | ValidationKind | OtherKind

  /**
   * What calling an annotation step did: it raised an exception, or it returned. A step
   * may change the batch it was given in place (`mutated`) and may return a
   * replacement (`returned`); `None` is Python's `None`.
   */
  datatype StepOutcome = Raised(error: Error) | Done(mutated: Table, returned: Option<Table>)

  type Step = Table -> StepOutcome

  class SourceDb {
    const name: string
    const kind: DbKind
    const keyCols: KeyList
    /** The frame that `upload_db` reads from the database file. */
    const raw: Table
    /** The database's pre-processor, applied by `pre_process` to the loaded frame. */
    const preProcessor: Table -> Table
    /** `instructions["annotations"][n]["compute_function"]` for each configured name `n`. */
    const steps: map<string, Step>
    /** The loaded frame, or None before loading and after a merge released it. */
    var df: Option<Table>

    constructor (name: string, kind: DbKind, keyCols: KeyList, raw: Table,
                 preProcessor: Table -> Table, steps: map<string, Step>)
      ensures this.name == name && this.kind == kind && this.keyCols == keyCols
      ensures this.raw == raw && this.preProcessor == preProcessor && this.steps == steps
      ensures df == None
    {
      this.name := name;
      this.kind := kind;
      this.keyCols := keyCols;
      this.raw := raw;
      this.preProcessor := preProcessor;
      this.steps := steps;
      df := None;
    }

    /** `upload_db()`: load the database file. */
    method UploadDb()
      modifies this
      ensures df == Some(raw)
    {
      df := Some(raw);
    }

    /** `pre_process()`: replace the loaded frame by its pre-processed form. */
    method PreProcess()
      requires df.Some?
      modifies this
      ensures df == Some(preProcessor(old(df).value))
    {
      df := Some(preProcessor(df.value));
    }
  }
}
