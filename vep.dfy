/**
 * What the hg37 and the hg38 variants sources' annotation modules share word
 * for word: turning a VEP result file (already read under its fourteen column
 * names) into a frame keyed on chr, pos, ref, alt; `get_from_extra`; the
 * case-insensitive ADAR and APOBEC predicates; and the loop that rewrites the
 * join keys as stripped strings in place.
 */
module Vep {
  import opened Wrappers
  import opened Text
  import opened Dicts
  import opened Frames
  import opened Casts

  /** The join keys of the variants sources. */
  const VariantKeys: seq<string> := ["chr", "pos", "ref", "alt"]

  const UploadedCol: string := "#Uploaded_variation"

  /** The column names given to `read_csv` for a VEP result file. */
  const VepColumns: seq<string> := [UploadedCol, "Location", "Allele", "Gene", "Feature",
    "Feature_type", "Consequence", "cDNA_position", "CDS_position",
    "Protein_position", "Amino_acids", "Codons", "Existing_variation", "Extra"]

  // ------------------------------------------------------------ Extra field

  /** The items that hold a `=`, each split at its first `=`, in order; the others are skipped. */
  function ExtraItems(items: seq<string>): (pairs: seq<(string, string)>)
    ensures |pairs| <= |items|
    ensures forall p :: p in pairs ==> '=' !in p.0
    decreases |items|
  {
    if |items| == 0 then []
    else
      var rest := ExtraItems(items[1..]);
      if '=' in items[0] then [SplitOnce(items[0], '=')] + rest else rest
  }

  /** Parsing distributes over concatenation of the item list. */
  lemma {:induction false} ExtraItemsAppend(a: seq<string>, b: seq<string>)
    ensures ExtraItems(a + b) == ExtraItems(a) + ExtraItems(b)
    decreases |a|
  {
    if |a| == 0 {
      assert a + b == b;
    } else {
      assert (a + b)[0] == a[0] && (a + b)[1..] == a[1..] + b;
      ExtraItemsAppend(a[1..], b);
      var head: seq<(string, string)> := if '=' in a[0] then [SplitOnce(a[0], '=')] else [];
      assert ExtraItems(a) == head + ExtraItems(a[1..]);
      assert ExtraItems(a + b) == head + ExtraItems(a[1..] + b);
    }
  }

  /**
   * Each item contributes on its own: one without `=` is skipped, one with
   * `=` is split at its first `=`, wherever it stands in the list.
   */
  lemma ExtraItemsSplice(a: seq<string>, x: string, b: seq<string>)
    ensures ExtraItems(a + [x] + b) == ExtraItems(a) + (if '=' in x then [SplitOnce(x, '=')] else []) + ExtraItems(b)
    ensures '=' !in x ==> ExtraItems(a + [x] + b) == ExtraItems(a + b)
  {
    var one: seq<(string, string)> := if '=' in x then [SplitOnce(x, '=')] else [];
    assert [x][1..] == [];
    assert ExtraItems([x]) == one;
    ExtraItemsAppend(a, [x]);
    ExtraItemsAppend(a + [x], b);
    assert ExtraItems(a + [x] + b) == ExtraItems(a) + one + ExtraItems(b);
    if '=' !in x {
      ExtraItemsAppend(a, b);
      assert ExtraItems(a) + one == ExtraItems(a);
    }
  }

  /** The `key=value` pairs of an Extra string, whose items are separated by `;`. */
  function ExtraPairs(extras: string): seq<(string, string)> {
    ExtraItems(Split(extras, ';'))
  }

  /** `get_from_extra(key, extras)`: the value of the last `key=` item (`dict` keeps the last); None stands for pd.NA. */
  function GetFromExtra(key: string, extras: string): Option<string> {
    var d := FromPairs(ExtraPairs(extras));
    if key in d then Some(d[key]) else None
  }

  /** pd.NA for an absent value. */
  function NaCell(v: Option<string>): (c: Cell)
    ensures c.Null? <==> v.None?
    ensures v.Some? ==> c == Str(v.value)
  {
    if v.Some? then Str(v.value) else Null
  }

  /** The items VEP writes for tag/value pairs. */
  function RenderItems(pairs: seq<(string, string)>): (items: seq<string>)
    ensures |items| == |pairs| && forall i :: 0 <= i < |pairs| ==> items[i] == pairs[i].0 + "=" + pairs[i].1
  {
    seq(|pairs|, i requires 0 <= i < |pairs| => pairs[i].0 + "=" + pairs[i].1)
  }

  /** The Extra string VEP writes: `k1=v1;k2=v2;...`. */
  function RenderExtra(pairs: seq<(string, string)>): string {
    Join(RenderItems(pairs), ";")
  }

  /** A tag and value that VEP can write: no `;` anywhere, no `=` in the tag (the value may hold `=`). */
  predicate Writable(p: (string, string)) {
    ';' !in p.0 && '=' !in p.0 && ';' !in p.1
  }

  lemma {:induction false} ExtraItemsOfRendered(pairs: seq<(string, string)>)
    requires forall p :: p in pairs ==> '=' !in p.0
    ensures ExtraItems(RenderItems(pairs)) == pairs
    decreases |pairs|
  {
    if |pairs| > 0 {
      var items := RenderItems(pairs);
      assert items[1..] == RenderItems(pairs[1..]);
      assert pairs[0] in pairs;
      ExtraItemsOfRendered(pairs[1..]);
      assert items[0] == pairs[0].0 + ['='] + pairs[0].1;
      assert items[0][|pairs[0].0|] == '=';
      SplitOnceOf(pairs[0].0, '=', pairs[0].1);
      assert [pairs[0]] + pairs[1..] == pairs;
    }
  }

  /** Parsing a written Extra string gives its pairs back, values holding `=` included. */
  lemma ExtraPairsOfRender(pairs: seq<(string, string)>)
    requires forall p :: p in pairs ==> Writable(p)
    ensures ExtraPairs(RenderExtra(pairs)) == pairs
  {
    var items := RenderItems(pairs);
    if |pairs| == 0 {
      assert RenderExtra(pairs) == "";
      assert Split("", ';') == [""];
    } else {
      forall i | 0 <= i < |items| ensures ';' !in items[i] {
        assert pairs[i] in pairs;
      }
      SplitOfJoin(items, ';');
      ExtraItemsOfRendered(pairs);
    }
  }

  /**
   * `get_from_extra` on a written Extra string: the value of the tag's last
   * pair when the tag repeats, NA when it is absent.
   */
  lemma GetFromExtraOfRender(pairs: seq<(string, string)>, key: string)
    requires forall p :: p in pairs ==> Writable(p)
    ensures !HasKey(pairs, key) ==> GetFromExtra(key, RenderExtra(pairs)) == None
    ensures forall i :: LastWithKey(pairs, key, i) ==> GetFromExtra(key, RenderExtra(pairs)) == Some(pairs[i].1)
  {
    ExtraPairsOfRender(pairs);
  }

  // ------------------------------------------------- `#Uploaded_variation`

  /** The parts of one `#Uploaded_variation` cell split at `:`; a missing cell (NaN) has none. */
  function VariationParts(c: Cell): seq<string> {
    if c.Str? then Split(c.s, ':') else []
  }

  /** The number of columns of `str.split(":", expand=True)`: the most parts of any row. */
  function MaxParts(rows: seq<Row>): (n: nat)
    ensures forall i :: 0 <= i < |rows| ==> |VariationParts(Get(rows[i], UploadedCol))| <= n
    ensures |rows| > 0 ==> exists i :: 0 <= i < |rows| && |VariationParts(Get(rows[i], UploadedCol))| == n
  {
    if |rows| == 0 then 0
    else
      var rest := MaxParts(rows[1..]);
      var k := |VariationParts(Get(rows[0], UploadedCol))|;
      assert forall i :: 1 <= i < |rows| ==> rows[i] == rows[1..][i - 1];
      if k > rest then k else rest
  }

  /** Part `k` as a cell; a row with fewer parts reads None there. */
  function PartCell(parts: seq<string>, k: nat): Cell {
    if k < |parts| then Str(parts[k]) else Null
  }

  /** One row of the parsed file: the variation column replaced by chr, pos, ref and alt. */
  function SplitRow(r: Row): (s: Row)
    ensures s.Keys == r.Keys - {UploadedCol} + {"chr", "pos", "ref", "alt"}
    ensures forall c :: c !in [UploadedCol] + VariantKeys ==> Get(s, c) == Get(r, c)
  {
    var parts := VariationParts(Get(r, UploadedCol));
    (r - {UploadedCol})["chr" := PartCell(parts, 0)]["pos" := PartCell(parts, 1)]["ref" := PartCell(parts, 2)]["alt" := PartCell(parts, 3)]
  }

  /** The columns of a parsed VEP file: the thirteen other columns, then the keys. */
  const ParsedColumns: seq<string> := VepColumns[1..] + VariantKeys

  /**
   * The parsing in `upload_vep_results_file`: `tmp.columns = [...]` raises a
   * ValueError unless the widest split has exactly four parts (so also for a
   * file without variants); otherwise chr, pos, ref, alt become the last four
   * columns and the variation column is gone.
   */
  function ParseVep(raw: Frame): (r: Result<Frame>)
    requires raw.columns == VepColumns
    ensures r.Ok? <==> MaxParts(raw.rows) == 4
    ensures r.Ok? ==> r.value.columns == ParsedColumns && |r.value.rows| == |raw.rows|
    ensures r.Ok? ==> forall i :: 0 <= i < |raw.rows| ==> r.value.rows[i] == SplitRow(raw.rows[i])
  {
    if MaxParts(raw.rows) != 4 then
      Err(ValueError("Length mismatch: Expected axis has " + NatToString(MaxParts(raw.rows)) + " elements, new values have 4 elements"))
    else Ok(Frame(ParsedColumns, seq(|raw.rows|, i requires 0 <= i < |raw.rows| => SplitRow(raw.rows[i]))))
  }

  /** The parsed columns do not repeat, and they are the file's columns with the variation column traded for the keys. */
  lemma ParsedColumnsShape()
    ensures Distinct(ParsedColumns)
    ensures ColumnSet(ParsedColumns) == ColumnSet(VepColumns) - {UploadedCol} + {"chr", "pos", "ref", "alt"}
  {
    ParsedColumnsDistinct();
    ParsedColumnSet();
  }

  lemma ParsedColumnsDistinct()
    ensures Distinct(ParsedColumns)
  {
  }

  lemma ParsedColumnSet()
    ensures ColumnSet(ParsedColumns) == ColumnSet(VepColumns) - {UploadedCol} + {"chr", "pos", "ref", "alt"}
  {
    var rest := VepColumns[1..];
    assert VepColumns == [UploadedCol] + rest;
    assert UploadedCol[0] == '#';
    assert forall i :: 0 <= i < |rest| ==> rest[i][0] != '#';
    assert UploadedCol !in VariantKeys;
    ColumnSetAfterHead(UploadedCol, rest, VariantKeys);
    assert ColumnSet(VariantKeys) == {"chr", "pos", "ref", "alt"};
  }

  /** Dropping the head `x` of a list and appending `keys` trades `x` for the names of `keys`. */
  lemma ColumnSetAfterHead(x: string, rest: seq<string>, keys: seq<string>)
    requires x !in rest && x !in keys
    ensures ColumnSet(rest + keys) == ColumnSet([x] + rest) - {x} + ColumnSet(keys)
  {
  }

  lemma ParseVepWellFormed(raw: Frame)
    requires raw.columns == VepColumns && WellFormed(raw) && ParseVep(raw).Ok?
    ensures WellFormed(ParseVep(raw).value)
  {
    var g := ParseVep(raw).value;
    ParsedColumnsDistinct();
    forall i | 0 <= i < |g.rows| ensures g.rows[i].Keys == ColumnSet(ParsedColumns) {
      assert raw.rows[i] in raw.rows;
      SplitRowKeys(raw.rows[i]);
    }
    RectangularAt(g.columns, g.rows);
  }

  /** A row of the file splits into a row with exactly the parsed columns. */
  lemma SplitRowKeys(r: Row)
    requires r.Keys == ColumnSet(VepColumns)
    ensures SplitRow(r).Keys == ColumnSet(ParsedColumns)
  {
    ParsedColumnSet();
  }

  /** A variation written `chr:pos:ref:alt` (no `:` inside a part) comes back as those four cells. */
  lemma SplitRowOfJoined(r: Row, key: seq<string>)
    requires |key| == 4 && forall k :: 0 <= k < 4 ==> ':' !in key[k]
    requires Get(r, UploadedCol) == Str(Join(key, ":"))
    ensures |VariationParts(Get(r, UploadedCol))| == 4
    ensures forall k :: 0 <= k < 4 ==> Get(SplitRow(r), VariantKeys[k]) == Str(key[k])
  {
    SplitOfJoin(key, ':');
  }

  /**
   * A file whose every variation is written `chr:pos:ref:alt` parses, and row
   * `i` carries the parts of its variation as its keys.
   */
  lemma ParseVepOfJoined(raw: Frame, keys: seq<seq<string>>)
    requires raw.columns == VepColumns && |raw.rows| > 0 && |keys| == |raw.rows|
    requires forall i :: 0 <= i < |keys| ==> |keys[i]| == 4 && forall k :: 0 <= k < 4 ==> ':' !in keys[i][k]
    requires forall i :: 0 <= i < |keys| ==> Get(raw.rows[i], UploadedCol) == Str(Join(keys[i], ":"))
    ensures ParseVep(raw).Ok?
    ensures forall i, k :: 0 <= i < |keys| && 0 <= k < 4 ==> Get(ParseVep(raw).value.rows[i], VariantKeys[k]) == Str(keys[i][k])
  {
    forall i | 0 <= i < |keys| ensures |VariationParts(Get(raw.rows[i], UploadedCol))| == 4
      && forall k :: 0 <= k < 4 ==> Get(SplitRow(raw.rows[i]), VariantKeys[k]) == Str(keys[i][k]) {
      SplitRowOfJoined(raw.rows[i], keys[i]);
    }
  }

  // ------------------------------------------------------------- predicates

  /** `series.str.upper() == s` for one cell: a missing or non-text cell compares unequal. */
  predicate UpperIs(c: Cell, s: string) {
    c.Str? && Upper(c.s) == s
  }

  /** The message pandas gives when `.str` is used on a column without text values. */
  const StrAccessorMessage := "Can only use .str accessor with string values!"

  /**
   * Whether `series.str` may be used on column `c`: pandas refuses the
   * accessor on a column that holds no text at all, such as an all-NaN
   * column read as floats, and accepts an empty one.
   */
  predicate StrAccessible(f: Frame, c: string) {
    |f.rows| == 0 || exists i :: 0 <= i < |f.rows| && Get(f.rows[i], c).Str?
  }

  /** `df[c].str.upper() == s`: a KeyError for a missing column, an AttributeError for one without text. */
  function UpperMask(f: Frame, c: string, s: string): (r: Result<seq<bool>>)
    ensures r.Ok? <==> c in f.columns && StrAccessible(f, c)
    ensures c !in f.columns ==> r == Err(KeyError([c]))
    ensures c in f.columns && !StrAccessible(f, c) ==> r == Err(AttributeError(StrAccessorMessage))
    ensures r.Ok? ==> |r.value| == |f.rows| && forall i :: 0 <= i < |f.rows| ==> r.value[i] == UpperIs(Get(f.rows[i], c), s)
  {
    if c !in f.columns then Err(KeyError([c]))
    else if !StrAccessible(f, c) then Err(AttributeError(StrAccessorMessage))
    else Ok(seq(|f.rows|, i requires 0 <= i < |f.rows| => UpperIs(Get(f.rows[i], c), s)))
  }

  /** `(df["ref"].str.upper() == x) & (df["alt"].str.upper() == y)`, the ref side evaluated first. */
  function BaseChangeMask(f: Frame, x: string, y: string): (r: Result<seq<bool>>)
    ensures r.Ok? <==> "ref" in f.columns && StrAccessible(f, "ref") && "alt" in f.columns && StrAccessible(f, "alt")
    ensures "ref" !in f.columns ==> r == Err(KeyError(["ref"]))
    ensures "ref" in f.columns && !StrAccessible(f, "ref") ==> r == Err(AttributeError(StrAccessorMessage))
    ensures "ref" in f.columns && StrAccessible(f, "ref") && "alt" !in f.columns ==> r == Err(KeyError(["alt"]))
    ensures "ref" in f.columns && StrAccessible(f, "ref") && "alt" in f.columns && !StrAccessible(f, "alt") ==> r == Err(AttributeError(StrAccessorMessage))
    ensures r.Ok? ==> |r.value| == |f.rows|
    ensures r.Ok? ==> forall i :: 0 <= i < |f.rows| ==> r.value[i] == (UpperIs(Get(f.rows[i], "ref"), x) && UpperIs(Get(f.rows[i], "alt"), y))
  {
    var a := UpperMask(f, "ref", x);
    if a.Err? then Err(a.error)
    else
      var b := UpperMask(f, "alt", y);
      if b.Err? then Err(b.error)
      else Ok(seq(|f.rows|, i requires 0 <= i < |f.rows| => a.value[i] && b.value[i]))
  }

  /** `isADARFixable(df)`: the mask "ref is G and alt is A". */
  function AdarFixable(f: Frame): (r: Result<seq<bool>>)
    ensures r.Ok? <==> "ref" in f.columns && StrAccessible(f, "ref") && "alt" in f.columns && StrAccessible(f, "alt")
    ensures r.Err? ==> r.error in {KeyError(["ref"]), KeyError(["alt"]), AttributeError(StrAccessorMessage)}
    ensures r.Ok? ==> |r.value| == |f.rows|
  {
    BaseChangeMask(f, "G", "A")
  }

  /** `isApoBecFixable(df)`: the mask "ref is T and alt is C". */
  function ApobecFixable(f: Frame): (r: Result<seq<bool>>)
    ensures r.Ok? <==> "ref" in f.columns && StrAccessible(f, "ref") && "alt" in f.columns && StrAccessible(f, "alt")
    ensures r.Err? ==> r.error in {KeyError(["ref"]), KeyError(["alt"]), AttributeError(StrAccessorMessage)}
    ensures r.Ok? ==> |r.value| == |f.rows|
  {
    BaseChangeMask(f, "T", "C")
  }

  /** A frame whose ref column is all NaN (and so read as floats) makes `isADARFixable` raise an AttributeError. */
  lemma AdarFixableOfNaNRef(f: Frame)
    requires "ref" in f.columns && |f.rows| > 0
    requires forall i :: 0 <= i < |f.rows| ==> Get(f.rows[i], "ref") == Null
    ensures AdarFixable(f) == Err(AttributeError(StrAccessorMessage))
  {
  }

  /** Upper-casing matches one capital letter exactly for that letter in either case. */
  lemma UpperIsLetter(c: Cell, ch: char)
    requires 'A' <= ch <= 'Z'
    ensures UpperIs(c, [ch]) <==> c == Str([ch]) || c == Str([LowerChar(ch)])
  {
    if c.Str? && |c.s| == 1 {
      assert c.s == [c.s[0]];
      assert Upper(c.s) == [UpperChar(c.s[0])];
    }
  }

  /** The ADAR mask holds for a row exactly when ref is G or g and alt is A or a. */
  lemma AdarFixableCaseInsensitive(f: Frame, i: nat)
    requires AdarFixable(f).Ok? && i < |f.rows|
    ensures AdarFixable(f).value[i] <==> Get(f.rows[i], "ref") in {Str("G"), Str("g")} && Get(f.rows[i], "alt") in {Str("A"), Str("a")}
  {
    UpperIsLetter(Get(f.rows[i], "ref"), 'G');
    UpperIsLetter(Get(f.rows[i], "alt"), 'A');
  }

  /** The APOBEC mask holds for a row exactly when ref is T or t and alt is C or c. */
  lemma ApobecFixableCaseInsensitive(f: Frame, i: nat)
    requires ApobecFixable(f).Ok? && i < |f.rows|
    ensures ApobecFixable(f).value[i] <==> Get(f.rows[i], "ref") in {Str("T"), Str("t")} && Get(f.rows[i], "alt") in {Str("C"), Str("c")}
  {
    UpperIsLetter(Get(f.rows[i], "ref"), 'T');
    UpperIsLetter(Get(f.rows[i], "alt"), 'C');
  }

  /** No row is both ADAR- and APOBEC-fixable. */
  lemma FixableExclusive(f: Frame, i: nat)
    requires AdarFixable(f).Ok? && i < |f.rows|
    ensures !(AdarFixable(f).value[i] && ApobecFixable(f).value[i])
  {
  }

  // ------------------------------------------------------ key normalisation

  /** `df[c].astype(str).str.strip()`. */
  function StrippedColumn(f: Frame, c: string): (vals: seq<Cell>)
    ensures |vals| == |f.rows|
  {
    seq(|f.rows|, i requires 0 <= i < |f.rows| => Str(Strip(CellText(Get(f.rows[i], c)))))
  }

  /** A loop over columns that stopped at an exception: the frame as far as it got, and the exception. */
  datatype Normalised = Normalised(frame: Frame, error: Option<Error>)

  /**
   * `for c in cols: df[c] = df[c].astype(str).str.strip()`: each column in
   * turn is rewritten in place; a missing one raises a KeyError, and the
   * columns before it stay rewritten.
   */
  function NormaliseKeys(f: Frame, cols: seq<string>): (r: Normalised)
    ensures r.frame.columns == f.columns && |r.frame.rows| == |f.rows|
    ensures r.error.None? <==> forall c :: c in cols ==> c in f.columns
    ensures r.error.Some? ==> exists c :: c in cols && c !in f.columns && r.error.value == KeyError([c])
    decreases |cols|
  {
    if |cols| == 0 then Normalised(f, None)
    else if cols[0] !in f.columns then Normalised(f, Some(KeyError([cols[0]])))
    else NormaliseKeys(Assign(f, cols[0], StrippedColumn(f, cols[0])), cols[1..])
  }

  lemma {:induction false} NormaliseKeysWellFormed(f: Frame, cols: seq<string>)
    requires WellFormed(f)
    ensures WellFormed(NormaliseKeys(f, cols).frame)
    decreases |cols|
  {
    if |cols| > 0 && cols[0] in f.columns {
      AssignWellFormed(f, cols[0], StrippedColumn(f, cols[0]));
      NormaliseKeysWellFormed(Assign(f, cols[0], StrippedColumn(f, cols[0])), cols[1..]);
    }
  }

  /** After a complete pass every key cell is a string without surrounding whitespace. */
  lemma {:induction false} NormalisedKeysAreStripped(f: Frame, cols: seq<string>, i: nat, c: string)
    requires NormaliseKeys(f, cols).error.None? && i < |f.rows| && c in cols
    ensures var k := Get(NormaliseKeys(f, cols).frame.rows[i], c); k.Str? && Strip(k.s) == k.s
    decreases |cols|
  {
    var g := Assign(f, cols[0], StrippedColumn(f, cols[0]));
    if c in cols[1..] {
      NormalisedKeysAreStripped(g, cols[1..], i, c);
    } else {
      assert c == cols[0];
      NormaliseKeepsOtherColumns(g, cols[1..], i, c);
      StripIdempotent(CellText(Get(f.rows[i], c)));
    }
  }

  /** A pass leaves every column outside `cols` as it was. */
  lemma {:induction false} NormaliseKeepsOtherColumns(f: Frame, cols: seq<string>, i: nat, c: string)
    requires i < |f.rows| && c !in cols
    ensures Get(NormaliseKeys(f, cols).frame.rows[i], c) == Get(f.rows[i], c)
    decreases |cols|
  {
    if |cols| > 0 && cols[0] in f.columns {
      var g := Assign(f, cols[0], StrippedColumn(f, cols[0]));
      AssignKeepsOtherColumns(f, cols[0], StrippedColumn(f, cols[0]), i, c);
      NormaliseKeepsOtherColumns(g, cols[1..], i, c);
    }
  }

  /** After a complete pass a key cell is a stripped string and any other cell is as it was. */
  lemma NormalisedCell(f: Frame, cols: seq<string>, i: nat, c: string)
    requires NormaliseKeys(f, cols).error.None? && i < |f.rows|
    ensures var k := Get(NormaliseKeys(f, cols).frame.rows[i], c);
      && (c in cols ==> k.Str? && Strip(k.s) == k.s)
      && (c !in cols ==> k == Get(f.rows[i], c))
  {
    if c in cols {
      NormalisedKeysAreStripped(f, cols, i, c);
    } else {
      NormaliseKeepsOtherColumns(f, cols, i, c);
    }
  }

  /** `df[c] = df[c].astype(str).str.strip()` on each of `cols` in turn, on the caller's frame. */
  method NormaliseKeysInPlace(df: DataFrame, cols: seq<string>) returns (err: Option<Error>)
    requires df.Valid()
    modifies df
    ensures df.Valid()
    ensures df.Snapshot() == NormaliseKeys(old(df.Snapshot()), cols).frame && err == NormaliseKeys(old(df.Snapshot()), cols).error
  {
    NormaliseKeysWellFormed(df.Snapshot(), cols);
    var i := 0;
    while i < |cols|
      invariant 0 <= i <= |cols| && df.Valid()
      invariant NormaliseKeys(df.Snapshot(), cols[i..]) == NormaliseKeys(old(df.Snapshot()), cols)
    {
      assert cols[i..][1..] == cols[i + 1..];
      if cols[i] !in df.columns {
        return Some(KeyError([cols[i]]));
      }
      df.AssignColumn(cols[i], StrippedColumn(df.Snapshot(), cols[i]));
      i := i + 1;
    }
    return None;
  }
}
