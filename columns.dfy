/**
 * Column-name lists: pandas' Index.union as the merge engine uses it, and the
 * "key columns first" reordering of extended_table.py.
 */
module Columns {
  import opened Text
  import opened Dicts

  /** Strictly increasing under Python's string order. */
  predicate Sorted(s: seq<string>) {
    forall i, j :: 0 <= i < j < |s| ==> Below(s[i], s[j])
  }

  lemma SortedIsDistinct(s: seq<string>)
    requires Sorted(s)
    ensures Distinct(s)
  {
    forall i, j | 0 <= i < j < |s| ensures s[i] != s[j] {
      if s[i] == s[j] {
        BelowIrreflexive(s[i]);
      }
    }
  }

  /** Insert `x` into its place in a sorted list that does not hold it yet. */
  function Insert(x: string, s: seq<string>): (r: seq<string>)
    requires Sorted(s) && x !in s
    ensures Sorted(r)
    ensures |r| == |s| + 1
    ensures forall y :: y in r <==> y == x || y in s
  {
    if |s| == 0 then [x]
    else if Below(x, s[0]) then
      assert forall j :: 0 < j < |s| ==> Below(x, s[j]) by {
        forall j | 0 < j < |s| ensures Below(x, s[j]) { BelowTransitive(x, s[0], s[j]); }
      }
      [x] + s
    else
      BelowTotal(x, s[0]);
      var t := Insert(x, s[1..]);
      assert forall y :: y in s ==> y == s[0] || y in s[1..];
      forall k | 0 <= k < |t| ensures Below(s[0], t[k]) {
        if t[k] != x {
          assert t[k] in t;
          assert t[k] in s[1..];
          var m :| 0 <= m < |s[1..]| && s[1..][m] == t[k];
          assert s[m + 1] == t[k];
        }
      }
      [s[0]] + t
  }

  /** sorted(s) for a list without repeats. */
  function Sort(s: seq<string>): (r: seq<string>)
    requires Distinct(s)
    ensures Sorted(r)
    ensures |r| == |s|
    ensures forall y :: y in r <==> y in s
  {
    if |s| == 0 then []
    else
      var n := |s| - 1;
      assert forall y :: y in s ==> y in s[..n] || y == s[n];
      Insert(s[n], Sort(s[..n]))
  }

  /** The head of a sorted list is below every other element of it. */
  lemma SortedHead(s: seq<string>, y: string)
    requires Sorted(s) && y in s
    ensures y == s[0] || Below(s[0], y)
  {
  }

  /** The tail of a sorted list holds every element but the head. */
  lemma SortedTail(s: seq<string>)
    requires Sorted(s) && |s| > 0
    ensures forall y :: y in s[1..] <==> y in s && y != s[0]
  {
    SortedIsDistinct(s);
    forall y | y in s && y != s[0] ensures y in s[1..] {
      var k :| 0 <= k < |s| && s[k] == y;
      assert s[1..][k - 1] == y;
    }
  }

  /** Two sorted lists that hold the same names are the same list. */
  lemma {:induction false} SortedUnique(a: seq<string>, b: seq<string>)
    requires Sorted(a) && Sorted(b)
    requires forall y :: y in a <==> y in b
    ensures a == b
    decreases |a|
  {
    SameNamesBothEmpty(a, b);
    if |a| > 0 {
      // the least element of each list is the least element of the other
      SortedHead(a, b[0]);
      SortedHead(b, a[0]);
      BelowAsymmetric(a[0], b[0]);
      SortedTail(a);
      SortedTail(b);
      SortedUnique(a[1..], b[1..]);
      assert a == [a[0]] + a[1..] && b == [b[0]] + b[1..];
    }
  }

  /** Two lists that hold the same names are both empty or both not. */
  lemma SameNamesBothEmpty(a: seq<string>, b: seq<string>)
    requires forall y :: y in a <==> y in b
    ensures |a| == 0 <==> |b| == 0
  {
    if |a| > 0 {
      assert a[0] in b;
    }
    if |b| > 0 {
      assert b[0] in a;
    }
  }

  /**
   * pandas' `a.union(b)` with its default sort: `a` itself when `b` is empty
   * or equal to `a`, `b` when `a` is empty, and otherwise every name of either,
   * once, in sorted order.
   */
  function Union(a: seq<string>, b: seq<string>): seq<string> {
    if |b| == 0 || a == b then a
    else if |a| == 0 then b
    else Sort(FromKeys(a + b))
  }

  /** The union holds exactly the names of both operands, each once, and is sorted unless one side is empty or both are equal. */
  lemma UnionContents(a: seq<string>, b: seq<string>)
    requires Distinct(a) && Distinct(b)
    ensures var u := Union(a, b);
      Distinct(u) && (forall y :: y in u <==> y in a || y in b)
    ensures |a| > 0 && |b| > 0 && a != b ==> Sorted(Union(a, b))
  {
    if !(|b| == 0 || a == b) && |a| > 0 {
      SortedIsDistinct(Sort(FromKeys(a + b)));
    }
  }

  /** Union of two name lists does not depend on their order once sorting applies. */
  lemma UnionSymmetric(a: seq<string>, b: seq<string>)
    requires Distinct(a) && Distinct(b) && |a| > 0 && |b| > 0 && a != b
    ensures Union(a, b) == Union(b, a)
  {
    UnionContents(a, b);
    UnionContents(b, a);
    SortedUnique(Union(a, b), Union(b, a));
  }

  /** `[c for c in cols if c not in keys]`. */
  function Without(cols: seq<string>, keys: seq<string>): (r: seq<string>)
    ensures forall y :: y in r <==> y in cols && y !in keys
    ensures Distinct(cols) ==> Distinct(r)
  {
    if |cols| == 0 then []
    else
      var rest := Without(cols[1..], keys);
      if cols[0] in keys then rest else [cols[0]] + rest
  }

  /**
   * `_order_with_keys_first`: the key columns, then every other name of `cols`
   * in the order of `cols`.
   */
  function OrderWithKeysFirst(keys: seq<string>, cols: seq<string>): seq<string> {
    keys + Without(cols, keys)
  }

  /** The keys lead; the result holds the names of both, without repeats when neither list repeats. */
  lemma KeysFirst(keys: seq<string>, cols: seq<string>)
    ensures var r := OrderWithKeysFirst(keys, cols);
      |keys| <= |r| && r[..|keys|] == keys && (forall y :: y in r <==> y in keys || y in cols)
    ensures Distinct(keys) && Distinct(cols) ==> Distinct(OrderWithKeysFirst(keys, cols))
  {
    var r := OrderWithKeysFirst(keys, cols);
    assert r[..|keys|] == keys;
    assert forall i :: |keys| <= i < |r| ==> r[i] in Without(cols, keys);
  }

  /** Filtering a concatenation filters each part. */
  lemma {:induction false} WithoutAppend(a: seq<string>, b: seq<string>, keys: seq<string>)
    ensures Without(a + b, keys) == Without(a, keys) + Without(b, keys)
    decreases |a|
  {
    if |a| > 0 {
      assert (a + b)[1..] == a[1..] + b;
      WithoutAppend(a[1..], b, keys);
    } else {
      assert a + b == b;
    }
  }

  /** A non-key name sits in the filtered list right after the non-key names before it. */
  lemma WithoutAt(cols: seq<string>, keys: seq<string>, i: nat)
    requires i < |cols| && cols[i] !in keys
    ensures |Without(cols[..i], keys)| < |Without(cols, keys)|
    ensures Without(cols, keys)[|Without(cols[..i], keys)|] == cols[i]
  {
    assert cols == cols[..i] + cols[i..];
    WithoutAppend(cols[..i], cols[i..], keys);
    assert Without(cols[i..], keys)[0] == cols[i];
  }

  /** A non-key name at `i` adds to the count of non-key names before any later position. */
  lemma WithoutPrefixGrows(cols: seq<string>, keys: seq<string>, i: nat, j: nat)
    requires i < j <= |cols| && cols[i] !in keys
    ensures |Without(cols[..i], keys)| < |Without(cols[..j], keys)|
  {
    assert cols[..j] == cols[..i] + cols[i..j];
    WithoutAppend(cols[..i], cols[i..j], keys);
    assert cols[i..j][0] == cols[i];
  }

  /**
   * The non-key names keep the relative order they had in `cols`: each one
   * sits at the count of non-key names before it.
   */
  lemma WithoutKeepsOrder(cols: seq<string>, keys: seq<string>, i: nat, j: nat)
    requires i < j < |cols| && cols[i] !in keys && cols[j] !in keys
    ensures var w := Without(cols, keys);
      var p := |Without(cols[..i], keys)|;
      var q := |Without(cols[..j], keys)|;
      p < q < |w| && w[p] == cols[i] && w[q] == cols[j]
  {
    WithoutAt(cols, keys, i);
    WithoutAt(cols, keys, j);
    WithoutPrefixGrows(cols, keys, i, j);
  }
}
