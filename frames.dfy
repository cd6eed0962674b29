/**
 * A pandas DataFrame as the modelled code uses it: an ordered list of column
 * names and an ordered list of rows, each row a map from column name to cell.
 * Missing data (NaN, None, pd.NA) is the single cell `Null`.
 *
 * `Frame` is the value of a frame; `DataFrame` is a frame object that the
 * Python code mutates in place through a reference (df[c] = ..., df.loc[...] = ...,
 * df.drop(df.index, inplace=True)). Each in-place method is specified by the
 * function on `Frame` values that computes its effect.
 */
module Frames {
  import opened Wrappers
  import opened Dicts
  import opened Columns

  datatype Cell = Null | Int(i: int) | Str(s: string) | Bool(b: bool)

  type Row = map<string, Cell>

  datatype Frame = Frame(columns: seq<string>, rows: seq<Row>)

  function ColumnSet(cols: seq<string>): set<string> {
    set c | c in cols
  }

  /** Every row has a cell for every column and for nothing else. */
  predicate Rectangular(cols: seq<string>, rows: seq<Row>) {
    forall r :: r in rows ==> r.Keys == ColumnSet(cols)
  }

  /** Rows that each have exactly the columns' cells are rectangular. */
  lemma RectangularAt(cols: seq<string>, rows: seq<Row>)
    requires forall i :: 0 <= i < |rows| ==> rows[i].Keys == ColumnSet(cols)
    ensures Rectangular(cols, rows)
  {
    forall r | r in rows ensures r.Keys == ColumnSet(cols) {
      var i :| 0 <= i < |rows| && rows[i] == r;
    }
  }

  /** Column names are unique and the rows are rectangular. */
  predicate WellFormed(f: Frame) {
    Distinct(f.columns) && Rectangular(f.columns, f.rows)
  }

  /** `df.empty`: no rows, or no columns. */
  predicate Empty(f: Frame) {
    |f.rows| == 0 || |f.columns| == 0
  }

  function Get(r: Row, c: string): Cell {
    if c in r then r[c] else Null
  }

  /** The key tuple of a row: its cells in the key columns, in order. */
  function KeyOf(r: Row, keys: seq<string>): (k: seq<Cell>)
    ensures |k| == |keys| && forall i :: 0 <= i < |keys| ==> k[i] == Get(r, keys[i])
  {
    seq(|keys|, i requires 0 <= i < |keys| => Get(r, keys[i]))
  }

  /** The set of key tuples of some rows. */
  function KeySet(rows: seq<Row>, keys: seq<string>): set<seq<Cell>> {
    set r | r in rows :: KeyOf(r, keys)
  }

  /** No two rows share a key tuple. */
  predicate UniqueKeys(rows: seq<Row>, keys: seq<string>) {
    forall i, j :: 0 <= i < j < |rows| ==> KeyOf(rows[i], keys) != KeyOf(rows[j], keys)
  }

  /** The cells of one column, top to bottom. */
  function Column(f: Frame, c: string): (vals: seq<Cell>)
    ensures |vals| == |f.rows| && forall i :: 0 <= i < |f.rows| ==> vals[i] == Get(f.rows[i], c)
  {
    seq(|f.rows|, i requires 0 <= i < |f.rows| => Get(f.rows[i], c))
  }

  /** A row with a Null cell in each of `cols`. */
  function NullRow(cols: seq<string>): (r: Row)
    ensures r.Keys == ColumnSet(cols) && forall c :: c in r ==> r[c] == Null
  {
    map c | c in cols :: Null
  }

  /**
   * `df[c] = vals`: overwrite column `c` when it exists, append it otherwise.
   * On a frame without rows, pandas first gives the frame one row per value,
   * with Null in every existing column.
   */
  function Assign(f: Frame, c: string, vals: seq<Cell>): (g: Frame)
    requires |vals| == |f.rows| || |f.rows| == 0
    ensures g.columns == if c in f.columns then f.columns else f.columns + [c]
    ensures |g.rows| == |vals|
    ensures forall i :: 0 <= i < |vals| ==> Get(g.rows[i], c) == vals[i]
  {
    var cols := if c in f.columns then f.columns else f.columns + [c];
    if |f.rows| == 0 then
      Frame(cols, seq(|vals|, i requires 0 <= i < |vals| => NullRow(f.columns)[c := vals[i]]))
    else
      Frame(cols, seq(|vals|, i requires 0 <= i < |vals| => f.rows[i][c := vals[i]]))
  }

  lemma AssignWellFormed(f: Frame, c: string, vals: seq<Cell>)
    requires WellFormed(f) && (|vals| == |f.rows| || |f.rows| == 0)
    ensures WellFormed(Assign(f, c, vals))
  {
    var g := Assign(f, c, vals);
    assert ColumnSet(g.columns) == ColumnSet(f.columns) + {c};
    forall r | r in g.rows ensures r.Keys == ColumnSet(g.columns) {
      var i :| 0 <= i < |g.rows| && g.rows[i] == r;
      if |f.rows| > 0 {
        assert f.rows[i] in f.rows;
        assert r == f.rows[i][c := vals[i]];
      } else {
        assert r == NullRow(f.columns)[c := vals[i]];
      }
      assert r.Keys == ColumnSet(f.columns) + {c};
    }
  }

  /** On a frame with rows, `df[c] = vals` leaves every other column of every row as it was. */
  lemma AssignKeepsOtherColumns(f: Frame, c: string, vals: seq<Cell>, i: nat, d: string)
    requires |vals| == |f.rows| && i < |f.rows| && d != c
    ensures Get(Assign(f, c, vals).rows[i], d) == Get(f.rows[i], d)
  {
  }

  /** `df[c] = v` for a scalar `v`. */
  function Fill(f: Frame, c: string, v: Cell): Frame {
    Assign(f, c, seq(|f.rows|, _ => v))
  }

  /** `df.loc[mask, c] = v` for an existing column `c`. */
  function LocSet(f: Frame, mask: seq<bool>, c: string, v: Cell): (g: Frame)
    requires |mask| == |f.rows|
    ensures g.columns == f.columns && |g.rows| == |f.rows|
  {
    Frame(f.columns, seq(|f.rows|, i requires 0 <= i < |f.rows| => if mask[i] then f.rows[i][c := v] else f.rows[i]))
  }

  lemma LocSetWellFormed(f: Frame, mask: seq<bool>, c: string, v: Cell)
    requires WellFormed(f) && |mask| == |f.rows| && c in f.columns
    ensures WellFormed(LocSet(f, mask, c, v))
  {
    var g := LocSet(f, mask, c, v);
    forall r | r in g.rows ensures r.Keys == ColumnSet(g.columns) {
      var i :| 0 <= i < |g.rows| && g.rows[i] == r;
      assert f.rows[i] in f.rows;
    }
  }

  /** `df.reindex(columns=cols)`: exactly the columns `cols`, with Null where a row had no cell. */
  function Reindex(f: Frame, cols: seq<string>): (g: Frame)
    ensures g.columns == cols && |g.rows| == |f.rows|
    ensures forall i, c :: 0 <= i < |f.rows| && c in cols ==> c in g.rows[i] && g.rows[i][c] == Get(f.rows[i], c)
    ensures Distinct(cols) ==> WellFormed(g)
  {
    Frame(cols, seq(|f.rows|, i requires 0 <= i < |f.rows| => map c | c in cols :: Get(f.rows[i], c)))
  }

  /** `df[cols]`: the named columns, in that order; a KeyError lists the names the frame lacks. */
  function Select(f: Frame, cols: seq<string>): (r: Result<Frame>)
    ensures r.Ok? <==> forall c :: c in cols ==> c in f.columns
    ensures r.Ok? ==> r.value == Reindex(f, cols)
    ensures r.Err? ==> r.error == KeyError(Without(cols, f.columns))
  {
    if forall c :: c in cols ==> c in f.columns then Ok(Reindex(f, cols))
    else
      var missing := Without(cols, f.columns);
      assert exists c :: c in cols && c !in f.columns;
      Err(KeyError(missing))
  }

  /** `df.drop(columns=[c])`. */
  function DropColumn(f: Frame, c: string): (g: Frame)
    ensures g.columns == Without(f.columns, [c]) && |g.rows| == |f.rows|
    ensures forall i, d :: 0 <= i < |f.rows| && d != c ==> Get(g.rows[i], d) == Get(f.rows[i], d)
  {
    Frame(Without(f.columns, [c]), seq(|f.rows|, i requires 0 <= i < |f.rows| => f.rows[i] - {c}))
  }

  lemma DropColumnWellFormed(f: Frame, c: string)
    requires WellFormed(f)
    ensures WellFormed(DropColumn(f, c))
  {
    var g := DropColumn(f, c);
    forall r | r in g.rows ensures r.Keys == ColumnSet(g.columns) {
      var i :| 0 <= i < |g.rows| && g.rows[i] == r;
      assert f.rows[i] in f.rows;
    }
  }

  /** `pd.concat([a, b], ignore_index=True)` of two frames with the same columns. */
  function Concat(a: Frame, b: Frame): (g: Frame)
    requires a.columns == b.columns
    ensures g.columns == a.columns && g.rows == a.rows + b.rows
  {
    Frame(a.columns, a.rows + b.rows)
  }

  // ------------------------------------------------------------------- joins

  /** The rows of `rs` whose key tuple on `on` equals that of `l`, in their order. */
  function Matches(l: Row, rs: seq<Row>, on: seq<string>): (m: seq<Row>)
    ensures |m| <= |rs|
    ensures forall r :: r in m ==> r in rs && KeyOf(r, on) == KeyOf(l, on)
    ensures |m| == 0 <==> KeyOf(l, on) !in KeySet(rs, on)
  {
    if |rs| == 0 then []
    else
      var rest := Matches(l, rs[1..], on);
      assert KeySet(rs, on) == {KeyOf(rs[0], on)} + KeySet(rs[1..], on);
      if KeyOf(rs[0], on) == KeyOf(l, on) then [rs[0]] + rest else rest
  }

  /** How the columns of an inner merge are named: pandas' "_x" / "_y" suffixes on clashing non-key names. */
  function LeftName(c: string, right: seq<string>, on: seq<string>): string {
    if c in right && c !in on then c + "_x" else c
  }

  function RightName(c: string, left: seq<string>): string {
    if c in left then c + "_y" else c
  }

  function LeftNames(cols: seq<string>, right: seq<string>, on: seq<string>): (r: seq<string>)
    ensures |r| == |cols| && forall i :: 0 <= i < |cols| ==> r[i] == LeftName(cols[i], right, on)
  {
    seq(|cols|, i requires 0 <= i < |cols| => LeftName(cols[i], right, on))
  }

  function RightNames(cols: seq<string>, left: seq<string>): (r: seq<string>)
    ensures |r| == |cols| && forall i :: 0 <= i < |cols| ==> r[i] == RightName(cols[i], left)
  {
    seq(|cols|, i requires 0 <= i < |cols| => RightName(cols[i], left))
  }

  /** The columns of `left.merge(right, on=on)`: the left columns, then the non-key right columns. */
  function JoinColumns(left: seq<string>, right: seq<string>, on: seq<string>): seq<string> {
    LeftNames(left, right, on) + RightNames(Without(right, on), left)
  }

  function Zip(names: seq<string>, cells: seq<Cell>): (z: seq<(string, Cell)>)
    requires |names| == |cells|
    ensures |z| == |names| && forall i :: 0 <= i < |z| ==> z[i] == (names[i], cells[i])
  {
    seq(|names|, i requires 0 <= i < |names| => (names[i], cells[i]))
  }

  /** One output row of a merge: the left row's cells, then the right row's non-key cells, under the merged names. */
  function Combine(l: Row, r: Row, left: seq<string>, right: seq<string>, on: seq<string>): Row {
    var rcols := Without(right, on);
    FromPairs(Zip(LeftNames(left, right, on), seq(|left|, i requires 0 <= i < |left| => Get(l, left[i])))
              + Zip(RightNames(rcols, left), seq(|rcols|, i requires 0 <= i < |rcols| => Get(r, rcols[i]))))
  }

  /** The rows of an inner merge: each left row, in order, paired with each of its matches, in their order. */
  function JoinRows(ls: seq<Row>, rs: seq<Row>, left: seq<string>, right: seq<string>, on: seq<string>): seq<Row> {
    if |ls| == 0 then []
    else
      var l := ls[0];
      var ms := Matches(l, rs, on);
      seq(|ms|, j requires 0 <= j < |ms| => Combine(l, ms[j], left, right, on))
      + JoinRows(ls[1..], rs, left, right, on)
  }

  /** Σ over the left rows of their number of matches. */
  function MatchCount(ls: seq<Row>, rs: seq<Row>, on: seq<string>): nat {
    if |ls| == 0 then 0 else |Matches(ls[0], rs, on)| + MatchCount(ls[1..], rs, on)
  }

  /**
   * `left.merge(right, on=on, how="inner", sort=False)`: a KeyError if a key
   * column is missing on either side, a MergeError if the suffixed names
   * repeat, and otherwise the paired rows in left order. A frame here cannot
   * hold a repeated column name, so a repeat that pandas would let through
   * (one across the two sides) is refused like one within a side.
   */
  function InnerJoin(left: Frame, right: Frame, on: seq<string>): Result<Frame> {
    if !(forall c :: c in on ==> c in left.columns) then Err(KeyError(Without(on, left.columns)))
    else if !(forall c :: c in on ==> c in right.columns) then Err(KeyError(Without(on, right.columns)))
    else
      var cols := JoinColumns(left.columns, right.columns, on);
      if !Distinct(cols) then Err(MergeError("duplicate columns after suffixing"))
      else Ok(Frame(cols, JoinRows(left.rows, right.rows, left.columns, right.columns, on)))
  }

  lemma HasKeyZip(names: seq<string>, cells: seq<Cell>, k: string)
    requires |names| == |cells|
    ensures HasKey(Zip(names, cells), k) <==> k in names
  {
    var z := Zip(names, cells);
    if k in names {
      var i :| 0 <= i < |names| && names[i] == k;
      assert z[i].0 == k;
    }
  }

  lemma HasKeyAppend<V>(p: seq<(string, V)>, q: seq<(string, V)>, k: string)
    ensures HasKey(p + q, k) <==> HasKey(p, k) || HasKey(q, k)
  {
    if HasKey(p + q, k) {
      var i :| 0 <= i < |p + q| && (p + q)[i].0 == k;
      if i >= |p| {
        assert q[i - |p|].0 == k;
      }
    }
    if HasKey(q, k) {
      var i :| 0 <= i < |q| && q[i].0 == k;
      assert (p + q)[|p| + i].0 == k;
    }
    if HasKey(p, k) {
      var i :| 0 <= i < |p| && p[i].0 == k;
      assert (p + q)[i].0 == k;
    }
  }

  /** Each merged row has exactly the merged column names as its cells. */
  lemma CombineKeys(l: Row, r: Row, left: seq<string>, right: seq<string>, on: seq<string>)
    ensures Combine(l, r, left, right, on).Keys == ColumnSet(JoinColumns(left, right, on))
  {
    var rcols := Without(right, on);
    var a := LeftNames(left, right, on);
    var b := RightNames(rcols, left);
    var za := Zip(a, seq(|left|, i requires 0 <= i < |left| => Get(l, left[i])));
    var zb := Zip(b, seq(|rcols|, i requires 0 <= i < |rcols| => Get(r, rcols[i])));
    forall k ensures HasKey(za + zb, k) <==> k in a + b {
      HasKeyAppend(za, zb, k);
      HasKeyZip(a, seq(|left|, i requires 0 <= i < |left| => Get(l, left[i])), k);
      HasKeyZip(b, seq(|rcols|, i requires 0 <= i < |rcols| => Get(r, rcols[i])), k);
    }
  }

  /** The rows of an inner merge all have exactly the merged columns. */
  lemma {:induction false} JoinRowsKeys(ls: seq<Row>, rs: seq<Row>, left: seq<string>, right: seq<string>, on: seq<string>)
    ensures forall r :: r in JoinRows(ls, rs, left, right, on) ==> r.Keys == ColumnSet(JoinColumns(left, right, on))
    decreases |ls|
  {
    if |ls| > 0 {
      JoinRowsKeys(ls[1..], rs, left, right, on);
      var ms := Matches(ls[0], rs, on);
      forall j | 0 <= j < |ms| ensures Combine(ls[0], ms[j], left, right, on).Keys == ColumnSet(JoinColumns(left, right, on)) {
        CombineKeys(ls[0], ms[j], left, right, on);
      }
    }
  }

  /** A successful inner merge is a well-formed frame. */
  lemma InnerJoinWellFormed(left: Frame, right: Frame, on: seq<string>)
    requires InnerJoin(left, right, on).Ok?
    ensures WellFormed(InnerJoin(left, right, on).value)
  {
    JoinRowsKeys(left.rows, right.rows, left.columns, right.columns, on);
  }

  /** Merge rows of consecutive left blocks are consecutive: the join follows the left order. */
  lemma {:induction false} JoinRowsAppend(a: seq<Row>, b: seq<Row>, rs: seq<Row>, left: seq<string>, right: seq<string>, on: seq<string>)
    ensures JoinRows(a + b, rs, left, right, on) == JoinRows(a, rs, left, right, on) + JoinRows(b, rs, left, right, on)
    decreases |a|
  {
    if |a| > 0 {
      assert (a + b)[1..] == a[1..] + b;
      assert (a + b)[0] == a[0];
      JoinRowsAppend(a[1..], b, rs, left, right, on);
    } else {
      assert a + b == b;
    }
  }

  /** The merge has one row per (left row, matching right row) pair. */
  lemma {:induction false} JoinRowsCount(ls: seq<Row>, rs: seq<Row>, left: seq<string>, right: seq<string>, on: seq<string>)
    ensures |JoinRows(ls, rs, left, right, on)| == MatchCount(ls, rs, on)
    decreases |ls|
  {
    if |ls| > 0 {
      JoinRowsCount(ls[1..], rs, left, right, on);
    }
  }

  /** An inner join has one row per matching pair of a left and a right row. */
  lemma InnerJoinCount(left: Frame, right: Frame, on: seq<string>)
    requires InnerJoin(left, right, on).Ok?
    ensures |InnerJoin(left, right, on).value.rows| == MatchCount(left.rows, right.rows, on)
  {
    JoinRowsCount(left.rows, right.rows, left.columns, right.columns, on);
  }

  /** A left row without a match contributes no row: its left-order block is empty. */
  lemma UnmatchedRowDropped(l: Row, rs: seq<Row>, left: seq<string>, right: seq<string>, on: seq<string>)
    requires KeyOf(l, on) !in KeySet(rs, on)
    ensures JoinRows([l], rs, left, right, on) == []
  {
  }

  /**
   * The `_merge` column of `left.merge(right, on=on, how="left", indicator=True)`:
   * a left row with k > 0 matches gives k rows marked 'both', one without a
   * match gives one row marked 'left_only' (here `false`).
   */
  function LeftMergeIndicator(ls: seq<Row>, rs: seq<Row>, on: seq<string>): (flags: seq<bool>)
    ensures |flags| >= |ls|
  {
    if |ls| == 0 then []
    else
      var k := |Matches(ls[0], rs, on)|;
      (if k == 0 then [false] else seq(k, _ => true)) + LeftMergeIndicator(ls[1..], rs, on)
  }

  /** For each row, whether its key tuple occurs among the key tuples of `ref`. */
  function KeyPresence(rows: seq<Row>, keys: seq<string>, ref: seq<Row>): (mask: seq<bool>)
    ensures |mask| == |rows|
  {
    seq(|rows|, i requires 0 <= i < |rows| => KeyOf(rows[i], keys) in KeySet(ref, keys))
  }

  /** With repeat-free keys in `rs`, a row has at most one match. */
  lemma {:induction false} MatchesAtMostOne(l: Row, rs: seq<Row>, on: seq<string>)
    requires UniqueKeys(rs, on)
    ensures |Matches(l, rs, on)| <= 1
    decreases |rs|
  {
    if |rs| > 0 {
      assert UniqueKeys(rs[1..], on) by {
        forall i, j | 0 <= i < j < |rs[1..]| ensures KeyOf(rs[1..][i], on) != KeyOf(rs[1..][j], on) {
          assert rs[1..][i] == rs[i + 1] && rs[1..][j] == rs[j + 1];
        }
      }
      MatchesAtMostOne(l, rs[1..], on);
      if KeyOf(rs[0], on) == KeyOf(l, on) {
        forall r | r in rs[1..] ensures KeyOf(r, on) != KeyOf(l, on) {
          var j :| 0 <= j < |rs[1..]| && rs[1..][j] == r;
          assert rs[j + 1] == r;
        }
        assert KeyOf(l, on) !in KeySet(rs[1..], on);
      }
    }
  }

  /**
   * When the right-hand keys are repeat-free, the left merge has exactly one
   * row per left row, so its indicator is key membership, row by row.
   */
  lemma {:induction false} IndicatorOfUniqueKeys(ls: seq<Row>, rs: seq<Row>, on: seq<string>)
    requires UniqueKeys(rs, on)
    ensures LeftMergeIndicator(ls, rs, on) == KeyPresence(ls, on, rs)
    decreases |ls|
  {
    if |ls| > 0 {
      MatchesAtMostOne(ls[0], rs, on);
      IndicatorOfUniqueKeys(ls[1..], rs, on);
      SingleMatchFlag(|Matches(ls[0], rs, on)|);
      KeyPresenceCons(ls, on, rs);
    }
  }

  /** A row with at most one match contributes one flag: whether it matched. */
  lemma SingleMatchFlag(k: nat)
    requires k <= 1
    ensures (if k == 0 then [false] else seq(k, _ => true)) == [k == 1]
  {
  }

  /** The presence mask of a non-empty sequence is its head's flag followed by the tail's mask. */
  lemma KeyPresenceCons(rows: seq<Row>, keys: seq<string>, ref: seq<Row>)
    requires |rows| > 0
    ensures KeyPresence(rows, keys, ref) == [KeyOf(rows[0], keys) in KeySet(ref, keys)] + KeyPresence(rows[1..], keys, ref)
  {
    var tail := KeyPresence(rows[1..], keys, ref);
    forall i | 0 < i < |rows| ensures KeyPresence(rows, keys, ref)[i] == tail[i - 1] {
      assert rows[1..][i - 1] == rows[i];
    }
  }

  /** The indicator depends on the left rows only through their key tuples. */
  lemma {:induction false} IndicatorDependsOnKeys(ls: seq<Row>, ms: seq<Row>, rs: seq<Row>, on: seq<string>)
    requires |ls| == |ms| && forall i :: 0 <= i < |ls| ==> KeyOf(ls[i], on) == KeyOf(ms[i], on)
    ensures LeftMergeIndicator(ls, rs, on) == LeftMergeIndicator(ms, rs, on)
    decreases |ls|
  {
    if |ls| > 0 {
      MatchesDependOnKey(ls[0], ms[0], rs, on);
      forall i | 0 <= i < |ls[1..]| ensures KeyOf(ls[1..][i], on) == KeyOf(ms[1..][i], on) {
        assert ls[1..][i] == ls[i + 1] && ms[1..][i] == ms[i + 1];
      }
      IndicatorDependsOnKeys(ls[1..], ms[1..], rs, on);
    }
  }

  lemma {:induction false} MatchesDependOnKey(l: Row, m: Row, rs: seq<Row>, on: seq<string>)
    requires KeyOf(l, on) == KeyOf(m, on)
    ensures Matches(l, rs, on) == Matches(m, rs, on)
    decreases |rs|
  {
    if |rs| > 0 {
      MatchesDependOnKey(l, m, rs[1..], on);
    }
  }

  // -------------------------------------------------------- frame objects

  /** A frame object, shared by reference and changed in place. */
  class DataFrame {
    var columns: seq<string>
    var rows: seq<Row>

    function Snapshot(): Frame
      reads this
    {
      Frame(columns, rows)
    }

    ghost predicate Valid()
      reads this
    {
      WellFormed(Snapshot())
    }

    /** `pd.DataFrame(...)` / `df.copy()`: a new object holding the value `f`. */
    constructor (f: Frame)
      requires WellFormed(f)
      ensures Valid() && Snapshot() == f
    {
      columns := f.columns;
      rows := f.rows;
    }

    /** `df[c] = vals`. */
    method AssignColumn(c: string, vals: seq<Cell>)
      requires Valid() && (|vals| == |rows| || |rows| == 0)
      modifies this
      ensures Valid() && Snapshot() == Assign(old(Snapshot()), c, vals)
    {
      AssignWellFormed(Snapshot(), c, vals);
      var g := Assign(Snapshot(), c, vals);
      columns, rows := g.columns, g.rows;
    }

    /** `df[c] = v` for a scalar `v`. */
    method FillColumn(c: string, v: Cell)
      requires Valid()
      modifies this
      ensures Valid() && Snapshot() == Fill(old(Snapshot()), c, v)
    {
      AssignColumn(c, seq(|rows|, _ => v));
    }

    /** `df.loc[mask, c] = v`. */
    method SetWhere(mask: seq<bool>, c: string, v: Cell)
      requires Valid() && |mask| == |rows| && c in columns
      modifies this
      ensures Valid() && Snapshot() == LocSet(old(Snapshot()), mask, c, v)
    {
      LocSetWellFormed(Snapshot(), mask, c, v);
      rows := LocSet(Snapshot(), mask, c, v).rows;
    }

    /** `df.drop(df.index, inplace=True)`: no rows left, the columns stay. */
    method DropAllRows()
      requires Valid()
      modifies this
      ensures Valid() && Snapshot() == Frame(old(columns), [])
    {
      rows := [];
    }
  }
}
