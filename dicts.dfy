/**
 * Python dict construction as the modelled code uses it: `dict(pairs)` (a
 * later pair overrides an earlier one with the same key), a dict literal with
 * a repeated key (the same rule), and `list(dict.fromkeys(xs))` (drop repeats,
 * keep each first occurrence in place).
 */
module Dicts {

  predicate Distinct<T(==)>(s: seq<T>) {
    forall i, j :: 0 <= i < j < |s| ==> s[i] != s[j]
  }

  /** The key of some pair is `k`. */
  predicate HasKey<K(==), V>(pairs: seq<(K, V)>, k: K) {
    exists i :: 0 <= i < |pairs| && pairs[i].0 == k
  }

  /** Index `i` holds the last pair whose key is `k`. */
  predicate LastWithKey<K(==), V>(pairs: seq<(K, V)>, k: K, i: int) {
    0 <= i < |pairs| && pairs[i].0 == k && forall j :: i < j < |pairs| ==> pairs[j].0 != k
  }

  /** dict(pairs): every key of a pair is present, and it maps to the value of its last pair. */
  function FromPairs<K(==,!new), V>(pairs: seq<(K, V)>): (m: map<K, V>)
    ensures forall k :: k in m <==> HasKey(pairs, k)
    ensures forall k, i :: LastWithKey(pairs, k, i) ==> k in m && m[k] == pairs[i].1
  {
    if |pairs| == 0 then map[]
    else
      var n := |pairs| - 1;
      var m0 := FromPairs(pairs[..n]);
      assert forall i :: 0 <= i < n ==> pairs[..n][i] == pairs[i];
      m0[pairs[n].0 := pairs[n].1]
  }

  /** The position of the first occurrence of `x` in `s`. */
  function FirstIndex<T(==)>(s: seq<T>, x: T): (i: nat)
    requires x in s
    ensures i < |s| && s[i] == x && x !in s[..i]
  {
    if s[0] == x then 0
    else
      var k := FirstIndex(s[1..], x);
      assert s[..k + 1] == [s[0]] + s[1..][..k];
      k + 1
  }

  /** An element that occurs within a prefix first occurs at the same position in the whole sequence. */
  lemma FirstIndexOfPrefix<T>(s: seq<T>, n: nat, x: T)
    requires n <= |s| && x in s[..n]
    ensures FirstIndex(s, x) == FirstIndex(s[..n], x)
  {
    var k := FirstIndex(s[..n], x);
    var m := FirstIndex(s, x);
    assert s[..n][k] == s[k];
  }

  /** list(dict.fromkeys(s)): the first occurrence of every element. */
  function FromKeys<T(==,!new)>(s: seq<T>): (r: seq<T>)
    ensures Distinct(r)
    ensures forall x :: x in r <==> x in s
    ensures |r| <= |s|
  {
    if |s| == 0 then []
    else
      var n := |s| - 1;
      var d := FromKeys(s[..n]);
      assert forall x :: x in s[..n] ==> x in s;
      assert forall x :: x in s ==> x in s[..n] || x == s[n];
      if s[n] in d then d else d + [s[n]]
  }

  /** dict.fromkeys keeps its elements in the order of their first occurrences. */
  lemma {:induction false} FromKeysInOrder<T(!new)>(s: seq<T>)
    ensures forall i, j :: 0 <= i < j < |FromKeys(s)| ==> FirstIndex(s, FromKeys(s)[i]) < FirstIndex(s, FromKeys(s)[j])
    decreases |s|
  {
    if |s| > 0 {
      var n := |s| - 1;
      var d := FromKeys(s[..n]);
      var r := FromKeys(s);
      assert r == if s[n] in d then d else d + [s[n]];
      FromKeysInOrder(s[..n]);
      forall i, j | 0 <= i < j < |r| ensures FirstIndex(s, r[i]) < FirstIndex(s, r[j]) {
        assert r[i] == d[i] && r[i] in s[..n];
        FirstIndexOfPrefix(s, n, d[i]);
        if j < |d| {
          assert r[j] == d[j] && r[j] in s[..n];
          FirstIndexOfPrefix(s, n, d[j]);
        } else {
          assert r[j] == s[n] && s[n] !in s[..n];
        }
      }
    }
  }

  /** dict.fromkeys of a list without repeats is that list. */
  lemma {:induction false} FromKeysOfDistinct<T(!new)>(s: seq<T>)
    requires Distinct(s)
    ensures FromKeys(s) == s
    decreases |s|
  {
    if |s| > 0 {
      var n := |s| - 1;
      assert Distinct(s[..n]) by {
        forall i, j | 0 <= i < j < n ensures s[..n][i] != s[..n][j] {
          assert s[..n][i] == s[i] && s[..n][j] == s[j];
        }
      }
      FromKeysOfDistinct(s[..n]);
      assert s[n] !in s[..n];
      assert s == s[..n] + [s[n]];
    }
  }

  /** dict.fromkeys of a prefix is a prefix of dict.fromkeys of the whole list. */
  lemma {:induction false} FromKeysOfPrefix<T(!new)>(s: seq<T>, k: nat)
    requires k <= |s|
    ensures |FromKeys(s[..k])| <= |FromKeys(s)| && FromKeys(s)[..|FromKeys(s[..k])|] == FromKeys(s[..k])
    decreases |s|
  {
    if k < |s| {
      var n := |s| - 1;
      assert s[..n][..k] == s[..k];
      FromKeysOfPrefix(s[..n], k);
    } else {
      assert s[..k] == s;
    }
  }

  /** dict.fromkeys keeps a repeat-free prefix of its input exactly where it was. */
  lemma FromKeysKeepsDistinctPrefix<T(!new)>(s: seq<T>, k: nat)
    requires k <= |s| && Distinct(s[..k])
    ensures k <= |FromKeys(s)| && FromKeys(s)[..k] == s[..k]
  {
    FromKeysOfDistinct(s[..k]);
    FromKeysOfPrefix(s, k);
  }
}
