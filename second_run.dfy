/**
 * The second pass over a finished extended table (2nd_run.py): the
 * column check shared by its steps, the strand-aware ADAR and APOBEC flag
 * columns, the database hit count, and the reference-sequence column filled
 * chunk by chunk from a FASTA file. The FASTA file is a parameter: whether it
 * opens, and what a fetch of a span of a chromosome returns (None for an
 * unknown chromosome or a failed fetch).
 */
module SecondRun {
  import opened Wrappers
  import opened Text
  import opened Dicts
  import opened Columns
  import opened Frames
  import opened Casts
  import Vep

  // ------------------------------------------------------------ columns

  /** `check_columns(df, columns)`: a ValueError naming every missing column, in the order asked for. */
  function CheckColumns(f: Frame, cols: seq<string>): (r: Option<Error>)
    ensures r.None? <==> forall c :: c in cols ==> c in f.columns
    ensures r.Some? ==> r.value == ValueError("Missing columns: " + Join(Without(cols, f.columns), ", "))
  {
    var missing := Without(cols, f.columns);
    if |missing| > 0 then
      assert missing[0] in missing;
      Some(ValueError("Missing columns: " + Join(missing, ", ")))
    else
      assert missing == [];
      None
  }

  /** `check_columns` names exactly the asked-for columns the frame lacks, each as often as it was asked for. */
  lemma {:induction false} MissingInOrder(cols: seq<string>, have: seq<string>)
    ensures |Without(cols, have)| <= |cols|
    ensures forall c :: c in Without(cols, have) <==> c in cols && c !in have
    ensures multiset(Without(cols, have)) <= multiset(cols)
    decreases |cols|
  {
    if |cols| > 0 {
      MissingInOrder(cols[1..], have);
      assert cols == [cols[0]] + cols[1..];
    }
  }

  // -------------------------------------------------------------- flags

  /** The text cell `s`, as `df[c] == s` compares it: case-sensitively. */
  predicate Is(r: Row, c: string, s: string) {
    Get(r, c) == Str(s)
  }

  /** A G>A change on the forward strand, or its reverse complement C>T on the reverse strand. */
  predicate AdarRow(r: Row) {
    (Is(r, "STRAND", "1") && Is(r, "ref", "G") && Is(r, "alt", "A"))
    || (Is(r, "STRAND", "-1") && Is(r, "ref", "C") && Is(r, "alt", "T"))
  }

  /** A T>C change on the forward strand, or its reverse complement A>G on the reverse strand. */
  predicate ApobecRow(r: Row) {
    (Is(r, "STRAND", "1") && Is(r, "ref", "T") && Is(r, "alt", "C"))
    || (Is(r, "STRAND", "-1") && Is(r, "ref", "A") && Is(r, "alt", "G"))
  }

  /** A flag column: one boolean per row. */
  function FlagColumn(f: Frame, flag: Row -> bool): (vals: seq<Cell>)
    ensures |vals| == |f.rows|
  {
    seq(|f.rows|, i requires 0 <= i < |f.rows| => Bool(flag(f.rows[i])))
  }

  /** `isADARFixable(df)`: after the column check, the column `is_ADAR_fixable`. */
  method IsAdarFixable(df: DataFrame) returns (err: Option<Error>)
    requires df.Valid()
    modifies df
    ensures df.Valid() && err == CheckColumns(old(df.Snapshot()), ["STRAND", "ref", "alt"])
    ensures err.Some? ==> df.Snapshot() == old(df.Snapshot())
    ensures err.None? ==> df.Snapshot() == Assign(old(df.Snapshot()), "is_ADAR_fixable", FlagColumn(old(df.Snapshot()), AdarRow))
  {
    err := CheckColumns(df.Snapshot(), ["STRAND", "ref", "alt"]);
    if err.None? {
      df.AssignColumn("is_ADAR_fixable", FlagColumn(df.Snapshot(), AdarRow));
    }
  }

  /** `isAPOBECFixable(df)`: after the column check, the column `is_APOBEC_fixable`. */
  method IsApobecFixable(df: DataFrame) returns (err: Option<Error>)
    requires df.Valid()
    modifies df
    ensures df.Valid() && err == CheckColumns(old(df.Snapshot()), ["STRAND", "ref", "alt"])
    ensures err.Some? ==> df.Snapshot() == old(df.Snapshot())
    ensures err.None? ==> df.Snapshot() == Assign(old(df.Snapshot()), "is_APOBEC_fixable", FlagColumn(old(df.Snapshot()), ApobecRow))
  {
    err := CheckColumns(df.Snapshot(), ["STRAND", "ref", "alt"]);
    if err.None? {
      df.AssignColumn("is_APOBEC_fixable", FlagColumn(df.Snapshot(), ApobecRow));
    }
  }

  /** No row is flagged both ADAR- and APOBEC-fixable. */
  lemma FlagsExclusive(r: Row)
    ensures !(AdarRow(r) && ApobecRow(r))
  {
  }

  /** The Watson-Crick partner of a base. */
  function Complement(b: string): string {
    if b == "A" then "T" else if b == "T" then "A" else if b == "C" then "G" else if b == "G" then "C" else b
  }

  /** A variant on one strand, as the row of the table that records it. */
  function VariantRow(strand: string, ref: string, alt: string): Row {
    map["STRAND" := Str(strand), "ref" := Str(ref), "alt" := Str(alt)]
  }

  /** The flags of a recorded variant, read off its strand and bases. */
  lemma FlagsOfVariantRow(strand: string, ref: string, alt: string)
    ensures AdarRow(VariantRow(strand, ref, alt)) <==>
      (strand == "1" && ref == "G" && alt == "A") || (strand == "-1" && ref == "C" && alt == "T")
    ensures ApobecRow(VariantRow(strand, ref, alt)) <==>
      (strand == "1" && ref == "T" && alt == "C") || (strand == "-1" && ref == "A" && alt == "G")
  {
    var r := VariantRow(strand, ref, alt);
    assert Get(r, "STRAND") == Str(strand) && Get(r, "ref") == Str(ref) && Get(r, "alt") == Str(alt);
  }

  /**
   * Both flags are strand-symmetric: a change read on the forward strand is
   * flagged exactly when its complement read on the reverse strand is.
   */
  lemma FlagsStrandSymmetric(ref: string, alt: string)
    requires ref in ["A", "C", "G", "T"] && alt in ["A", "C", "G", "T"]
    ensures AdarRow(VariantRow("1", ref, alt)) <==> AdarRow(VariantRow("-1", Complement(ref), Complement(alt)))
    ensures ApobecRow(VariantRow("1", ref, alt)) <==> ApobecRow(VariantRow("-1", Complement(ref), Complement(alt)))
  {
    FlagsOfVariantRow("1", ref, alt);
    FlagsOfVariantRow("-1", Complement(ref), Complement(alt));
  }

  /**
   * On the forward strand the flags are the case-insensitive VEP predicates
   * restricted to upper-case bases; a lower-case base is never flagged here.
   */
  lemma FlagsRefineVepPredicates(r: Row)
    requires Is(r, "STRAND", "1")
    ensures AdarRow(r) ==> Vep.UpperIs(Get(r, "ref"), "G") && Vep.UpperIs(Get(r, "alt"), "A")
    ensures ApobecRow(r) ==> Vep.UpperIs(Get(r, "ref"), "T") && Vep.UpperIs(Get(r, "alt"), "C")
    ensures Is(r, "ref", "g") ==> !AdarRow(r)
  {
    if AdarRow(r) {
      assert Upper("G") == "G" && Upper("A") == "A";
    }
    if ApobecRow(r) {
      assert Upper("T") == "T" && Upper("C") == "C";
    }
  }

  // ----------------------------------------------------------- dbs_count

  /** The ten database columns whose hits are counted. */
  const Dbs: seq<string> := ["db1_TableS1", "db1_TableS3", "db1_TableS4", "db2_TableS2", "db3",
    "db4_SD1", "db4_SD2", "db4_SD3", "db5_SD1", "Varicarta"]

  /** How many of `cols` hold a value (`notna().sum()`). */
  function NonNullCount(r: Row, cols: seq<string>): (n: nat)
    ensures n <= |cols|
    decreases |cols|
  {
    if |cols| == 0 then 0
    else (if Get(r, cols[0]) != Null then 1 else 0) + NonNullCount(r, cols[1..])
  }

  /** The count is full exactly when every listed cell holds a value, and zero exactly when none does. */
  lemma {:induction false} NonNullCountBounds(r: Row, cols: seq<string>)
    ensures NonNullCount(r, cols) == |cols| <==> forall c :: c in cols ==> Get(r, c) != Null
    ensures NonNullCount(r, cols) == 0 <==> forall c :: c in cols ==> Get(r, c) == Null
    decreases |cols|
  {
    if |cols| > 0 {
      NonNullCountBounds(r, cols[1..]);
      assert forall c :: c in cols <==> c == cols[0] || c in cols[1..];
    }
  }

  /** `dbs_count(df)`: after the column check, the column `dbs_count`. */
  method DbsCount(df: DataFrame) returns (err: Option<Error>)
    requires df.Valid()
    modifies df
    ensures df.Valid() && err == CheckColumns(old(df.Snapshot()), Dbs)
    ensures err.Some? ==> df.Snapshot() == old(df.Snapshot())
    ensures err.None? ==> df.Snapshot() == Assign(old(df.Snapshot()), "dbs_count",
      seq(|old(df.rows)|, i requires 0 <= i < |old(df.rows)| => Int(NonNullCount(old(df.rows)[i], Dbs))))
  {
    err := CheckColumns(df.Snapshot(), Dbs);
    if err.None? {
      var rows := df.rows;
      df.AssignColumn("dbs_count", seq(|rows|, i requires 0 <= i < |rows| => Int(NonNullCount(rows[i], Dbs))));
    }
  }

  // ------------------------------------------------------ reference column

  /** A FASTA fetch: chromosome, 0-based start, exclusive end; None when the chromosome or span cannot be read. */
  type Fetch = (string, int, int) -> Option<string>

  /** `"chr" + str(chrom).lstrip("chr")`: every leading c, h or r is dropped before the prefix goes on. */
  function ChromName(chrom: string): string {
    "chr" + LStripChars(chrom, {'c', 'h', 'r'})
  }

  lemma {:induction false} LStripCharsOfStripped(s: string, chars: set<char>)
    ensures LStripChars(LStripChars(s, chars), chars) == LStripChars(s, chars)
  {
  }

  /** A prefix made only of stripped characters makes no difference. */
  lemma {:induction false} LStripCharsOfPrefix(p: string, s: string, chars: set<char>)
    requires forall c :: c in p ==> c in chars
    ensures LStripChars(p + s, chars) == LStripChars(s, chars)
    decreases |p|
  {
    if |p| > 0 {
      assert (p + s)[0] == p[0] && p[0] in p;
      assert (p + s)[1..] == p[1..] + s;
      assert LStripChars(p + s, chars) == LStripChars(p[1..] + s, chars);
      LStripCharsOfPrefix(p[1..], s, chars);
    } else {
      assert p + s == s;
    }
  }

  /** Naming a chromosome twice names it once: the two spellings "1" and "chr1" reach the same sequence. */
  lemma ChromNameIdempotent(chrom: string)
    ensures ChromName(ChromName(chrom)) == ChromName(chrom)
    ensures ChromName("chr" + chrom) == ChromName(chrom)
  {
    var t := LStripChars(chrom, {'c', 'h', 'r'});
    LStripCharsOfPrefix("chr", t, {'c', 'h', 'r'});
    LStripCharsOfStripped(chrom, {'c', 'h', 'r'});
    LStripCharsOfPrefix("chr", chrom, {'c', 'h', 'r'});
  }

  /** `_lookup_one`: the reference bases under a variant, upper-cased. */
  function LookupOne(fetch: Fetch, chrom: string, pos: int, ref: string): Option<string> {
    match fetch(ChromName(chrom), pos - 1, pos - 1 + |ref|)
    case None => None
    case Some(s) => Some(Upper(s))
  }

  /**
   * The lookup reads the span starting at the 0-based position `pos - 1`
   * and as long as `ref`, and returns it upper-cased.
   */
  lemma LookupOneSpan(fetch: Fetch, chrom: string, pos: int, ref: string)
    ensures var s := fetch(ChromName(chrom), pos - 1, pos - 1 + |ref|);
      && (LookupOne(fetch, chrom, pos, ref).Some? <==> s.Some?)
      && (s.Some? ==> |LookupOne(fetch, chrom, pos, ref).value| == |s.value|)
    ensures LookupOne(fetch, chrom, pos, ref).Some? ==> Upper(LookupOne(fetch, chrom, pos, ref).value) == LookupOne(fetch, chrom, pos, ref).value
  {
    var r := LookupOne(fetch, chrom, pos, ref);
    if r.Some? {
      var u := r.value;
      assert forall i :: 0 <= i < |u| ==> UpperChar(u[i]) == u[i];
    }
  }

  /** The inputs of the lookups: chromosome text, position and reference text of each row. */
  datatype Site = Site(chrom: string, pos: int, ref: string)

  function Sites(f: Frame, poss: seq<int>): (s: seq<Site>)
    requires |poss| == |f.rows|
    ensures |s| == |f.rows|
  {
    seq(|f.rows|, i requires 0 <= i < |f.rows| =>
      Site(CellText(Get(f.rows[i], "chr")), poss[i], CellText(Get(f.rows[i], "ref"))))
  }

  function Lookup(fetch: Fetch, s: Site): Option<string> {
    LookupOne(fetch, s.chrom, s.pos, s.ref)
  }

  /** The lookup of each site through the FASTA fetch. */
  function Finder(fetch: Fetch): Site -> Option<string> {
    s => Lookup(fetch, s)
  }

  function LookupFailed(s: Site): Error {
    RuntimeError("FASTA lookup failed for " + s.chrom + ":" + IntToString(s.pos))
  }

  /**
   * The lookups of `sites[k..]` in index order: the sequences found, or the
   * RuntimeError for the first site whose lookup fails.
   */
  function Lookups(look: Site -> Option<string>, sites: seq<Site>, k: nat): (r: Result<seq<Cell>>)
    requires k <= |sites|
    ensures r.Ok? <==> forall j :: k <= j < |sites| ==> look(sites[j]).Some?
    ensures r.Ok? ==> |r.value| == |sites| - k
    ensures r.Ok? ==> forall j :: k <= j < |sites| ==> r.value[j - k] == Str(look(sites[j]).value)
    decreases |sites| - k
  {
    if k == |sites| then Ok([])
    else match look(sites[k])
      case None => Err(LookupFailed(sites[k]))
      case Some(s) =>
        match Lookups(look, sites, k + 1)
        case Err(e) => Err(e)
        case Ok(rest) => Ok([Str(s)] + rest)
  }

  /** A failing lookup preceded only by successful ones is the one reported. */
  lemma {:induction false} LookupsFirstFailure(look: Site -> Option<string>, sites: seq<Site>, k: nat, i: nat)
    requires k <= i < |sites| && look(sites[i]).None?
    requires forall j :: k <= j < i ==> look(sites[j]).Some?
    ensures Lookups(look, sites, k) == Err(LookupFailed(sites[i]))
    decreases i - k
  {
    if k < i {
      LookupsFirstFailure(look, sites, k + 1, i);
      var rest := Lookups(look, sites, k + 1);
      assert look(sites[k]).Some? && rest.Err?;
    }
  }

  /** The number of chunks, `ceil(n / size)`, for a positive size. */
  function NumChunks(n: nat, size: nat): nat
    requires size > 0
  {
    (n + size - 1) / size
  }

  lemma MulMonotone(a: int, b: int, c: nat)
    requires a <= b
    ensures a * c <= b * c
  {
  }

  /**
   * The chunks `[ci * size, min(ci * size + size, n))` for `ci < ceil(n / size)`
   * cover every row exactly once: row `i` lies in chunk `i / size` and in no other.
   */
  lemma ChunksPartition(n: nat, size: nat, i: nat, ci: nat)
    requires size > 0 && i < n
    ensures i / size < NumChunks(n, size)
    ensures (i / size) * size <= i < (i / size) * size + size
    ensures ci * size <= i < ci * size + size ==> ci == i / size
  {
    var q := i / size;
    assert q * size + i % size == i;
    assert (n + size - 1) / size * size + (n + size - 1) % size == n + size - 1;
    if q >= NumChunks(n, size) {
      MulMonotone(NumChunks(n, size) + 1, q + 1, size);
      assert false;
    }
    if ci * size <= i < ci * size + size && ci != q {
      if ci < q {
        MulMonotone(ci + 1, q, size);
      } else {
        MulMonotone(q + 1, ci, size);
      }
    }
  }

  /** After the last chunk every row has been reached. */
  lemma ChunksCover(n: nat, size: nat)
    requires size > 0
    ensures NumChunks(n, size) * size >= n
  {
    assert (n + size - 1) / size * size + (n + size - 1) % size == n + size - 1;
  }

  /** The genome versions the column can be named after. */
  const Versions: seq<string> := ["hg19", "hg38"]

  /**
   * The new column's cells, or the exception `add_genome_ref_column` raises,
   * in the order it checks: the version, the columns, the FASTA file, the
   * positions, the chunk size (`ceil(n / 0)` divides by zero; a negative size
   * gives no chunk, so every cell stays None), then each lookup in row order.
   */
  function GenomeRefColumn(f: Frame, version: string, fastaOpens: bool, fetch: Fetch, chunkSize: int): (r: Result<seq<Cell>>)
    ensures version !in Versions ==> r.Err? && r.error.ValueError?
    ensures r.Ok? ==> |r.value| == |f.rows|
  {
    if version !in Versions then
      Err(ValueError("Invalid genome_version: " + version + ".\n Expected 'hg19' or 'hg38'."))
    else if CheckColumns(f, ["chr", "pos", "ref"]).Some? then Err(CheckColumns(f, ["chr", "pos", "ref"]).value)
    else if !fastaOpens then Err(RuntimeError("Could not open FASTA"))
    else
      var poss :- IntColumn(f, "pos");
      if chunkSize == 0 then Err(ZeroDivisionError)
      else if chunkSize < 0 then Ok(seq(|f.rows|, _ => Null))
      else Lookups(Finder(fetch), Sites(f, poss), 0)
  }

  /**
   * With a usable version, the columns present, the FASTA open, numeric
   * positions and a positive chunk size, the column holds each row's
   * upper-cased reference span, or the first failing row is reported.
   */
  lemma GenomeRefCells(f: Frame, version: string, fetch: Fetch, chunkSize: int)
    requires version in Versions && CheckColumns(f, ["chr", "pos", "ref"]).None?
    requires IntColumn(f, "pos").Ok? && chunkSize > 0
    ensures var sites := Sites(f, IntColumn(f, "pos").value);
      var r := GenomeRefColumn(f, version, true, fetch, chunkSize);
      (r.Ok? <==> forall i :: 0 <= i < |f.rows| ==> Lookup(fetch, sites[i]).Some?)
      && (r.Ok? ==> forall i :: 0 <= i < |f.rows| ==> r.value[i] == Str(Lookup(fetch, sites[i]).value))
      && (r.Err? ==> exists i :: 0 <= i < |f.rows| && Lookup(fetch, sites[i]).None? && r.error == LookupFailed(sites[i]))
  {
    var sites := Sites(f, IntColumn(f, "pos").value);
    var look := Finder(fetch);
    assert GenomeRefColumn(f, version, true, fetch, chunkSize) == Lookups(look, sites, 0);
    LookupsOutcome(look, sites);
  }

  /** All lookups in order: every span when each succeeds, otherwise some failing site's error. */
  lemma LookupsOutcome(look: Site -> Option<string>, sites: seq<Site>)
    ensures var r := Lookups(look, sites, 0);
      (r.Ok? ==> forall i :: 0 <= i < |sites| ==> r.value[i] == Str(look(sites[i]).value))
      && (r.Err? ==> exists i :: 0 <= i < |sites| && look(sites[i]).None? && r.error == LookupFailed(sites[i]))
  {
    if Lookups(look, sites, 0).Err? {
      var i := FirstFailing(look, sites, 0);
      LookupsFirstFailure(look, sites, 0, i);
    }
  }

  /** The first site whose lookup fails, when there is one. */
  function FirstFailing(look: Site -> Option<string>, sites: seq<Site>, k: nat): (i: nat)
    requires k <= |sites| && exists j :: k <= j < |sites| && look(sites[j]).None?
    ensures k <= i < |sites| && look(sites[i]).None?
    ensures forall j :: k <= j < i ==> look(sites[j]).Some?
    decreases |sites| - k
  {
    if look(sites[k]).None? then k else FirstFailing(look, sites, k + 1)
  }

  function Min(a: int, b: int): int { if a < b then a else b }

  /** The first `m` results hold their rows' reference spans, the rest are still None. */
  ghost predicate FilledUpTo(results: array<Cell>, look: Site -> Option<string>, sites: seq<Site>, m: nat)
    reads results
    requires results.Length == |sites| && m <= |sites|
  {
    (forall k :: 0 <= k < m ==> look(sites[k]).Some? && results[k] == Str(look(sites[k]).value))
    && forall k :: m <= k < |sites| ==> results[k] == Null
  }

  /** Once every lookup has succeeded and been stored, the stored cells are what `Lookups` gives. */
  lemma LookupsOfFilled(look: Site -> Option<string>, sites: seq<Site>, cells: seq<Cell>)
    requires |cells| == |sites|
    requires forall k :: 0 <= k < |sites| ==> look(sites[k]).Some? && cells[k] == Str(look(sites[k]).value)
    ensures Lookups(look, sites, 0) == Ok(cells)
  {
    var r := Lookups(look, sites, 0);
    assert r.Ok?;
    assert forall k :: 0 <= k < |sites| ==> r.value[k] == cells[k];
    assert r.value == cells;
  }

  /** One chunk `[lo, hi)`: each row's lookup in turn; the first failure is raised. */
  method LookupChunk(results: array<Cell>, look: Site -> Option<string>, sites: seq<Site>, lo: nat, hi: nat) returns (err: Option<Error>)
    requires results.Length == |sites| && lo <= hi <= |sites|
    requires FilledUpTo(results, look, sites, lo)
    modifies results
    ensures err.None? ==> FilledUpTo(results, look, sites, hi)
    ensures err.Some? ==> Lookups(look, sites, 0) == Err(err.value)
  {
    var i := lo;
    while i < hi
      invariant lo <= i <= hi && FilledUpTo(results, look, sites, i)
    {
      var s := look(sites[i]);
      if s.None? {
        LookupsFirstFailure(look, sites, 0, i);
        return Some(LookupFailed(sites[i]));
      }
      results[i] := Str(s.value);
      i := i + 1;
    }
    return None;
  }

  /** The chunk loop: `ceil(n / size)` chunks, in order, into a fresh `results` buffer. */
  method LookupAll(look: Site -> Option<string>, sites: seq<Site>, chunkSize: nat) returns (r: Result<seq<Cell>>)
    requires chunkSize > 0
    ensures r == Lookups(look, sites, 0)
  {
    var n := |sites|;
    var results := new Cell[n](_ => Null);
    var numChunks := NumChunks(n, chunkSize);
    var ci := 0;
    var start := 0;
    while ci < numChunks
      invariant 0 <= ci <= numChunks && start == ci * chunkSize
      invariant FilledUpTo(results, look, sites, Min(start, n))
    {
      var lo := Min(start, n);
      var end := Min(start + chunkSize, n);
      var err := LookupChunk(results, look, sites, lo, end);
      if err.Some? {
        return Err(err.value);
      }
      assert (ci + 1) * chunkSize == start + chunkSize;
      ci := ci + 1;
      start := start + chunkSize;
    }
    assert Min(start, n) == n by {
      ChunksCover(n, chunkSize);
    }
    LookupsOfFilled(look, sites, results[..]);
    r := Ok(results[..]);
  }

  /**
   * `add_genome_ref_column(df, fasta_path, genome_version, chunk_size=...)`:
   * the lookups go chunk by chunk into `results`, and the column named after
   * the version is assigned only once every lookup succeeded; on any
   * exception the frame is left untouched.
   */
  method AddGenomeRefColumn(df: DataFrame, version: string, fastaOpens: bool, fetch: Fetch, chunkSize: int)
    returns (err: Option<Error>)
    requires df.Valid()
    modifies df
    ensures df.Valid()
    ensures var r := GenomeRefColumn(old(df.Snapshot()), version, fastaOpens, fetch, chunkSize);
      && (r.Err? ==> err == Some(r.error) && df.Snapshot() == old(df.Snapshot()))
      && (r.Ok? ==> err == None && df.Snapshot() == Assign(old(df.Snapshot()), version, r.value))
  {
    if version !in Versions {
      return Some(ValueError("Invalid genome_version: " + version + ".\n Expected 'hg19' or 'hg38'."));
    }
    err := CheckColumns(df.Snapshot(), ["chr", "pos", "ref"]);
    if err.Some? {
      return;
    }
    if !fastaOpens {
      return Some(RuntimeError("Could not open FASTA"));
    }
    var poss := IntColumn(df.Snapshot(), "pos");
    if poss.Err? {
      return Some(poss.error);
    }
    var sites := Sites(df.Snapshot(), poss.value);
    if chunkSize == 0 {
      return Some(ZeroDivisionError);
    }
    var results: seq<Cell>;
    if chunkSize > 0 {
      var r := LookupAll(Finder(fetch), sites, chunkSize);
      if r.Err? {
        return Some(r.error);
      }
      results := r.value;
    } else {
      results := seq(|sites|, _ => Null);
    }
    df.AssignColumn(version, results);
  }
}
