/**
 * Sorting and slicing as pandas does them: `sort_values(ascending=False)`
 * by one real key, and `head(k)`. pandas' default sort is not stable, so
 * the contracts promise only an order and a permutation; the concrete
 * insertion sort here is one deterministic choice among the orders pandas
 * may return.
 */
module Ordering {
  import opened Numeric

  /** Non-increasing by `key`. */
  ghost predicate SortedDesc<T>(s: seq<T>, key: T -> real) {
    forall i, j :: 0 <= i < j < |s| ==> key(s[i]) >= key(s[j])
  }

  /** Inserts `x` before the first element whose key does not exceed `x`'s. */
  function InsertDesc<T(==)>(x: T, s: seq<T>, key: T -> real): (r: seq<T>)
    requires SortedDesc(s, key)
    ensures SortedDesc(r, key)
    ensures multiset(r) == multiset(s) + multiset{x}
    decreases |s|
  {
    if s == [] then [x]
    else if key(x) >= key(s[0]) then [x] + s
    else
      var t := InsertDesc(x, s[1..], key);
      assert s == [s[0]] + s[1..];
      HeadBoundsInsert(x, s, t, key);
      ConsSorted(s[0], t, key);
      [s[0]] + t
  }

  /** A head that outranks a descending tail keeps the list descending. */
  lemma ConsSorted<T>(h: T, t: seq<T>, key: T -> real)
    requires SortedDesc(t, key)
    requires forall j :: 0 <= j < |t| ==> key(h) >= key(t[j])
    ensures SortedDesc([h] + t, key)
  {
    var r := [h] + t;
    forall i, j | 0 <= i < j < |r|
      ensures key(r[i]) >= key(r[j])
    {
      assert r[j] == t[j - 1];
      if i > 0 {
        assert r[i] == t[i - 1];
      }
    }
  }

  /** The head of a descending list outranks anything built from its tail and
      a lower-ranked `x`. */
  lemma HeadBoundsInsert<T>(x: T, s: seq<T>, t: seq<T>, key: T -> real)
    requires s != [] && SortedDesc(s, key) && key(x) < key(s[0])
    requires multiset(t) == multiset(s[1..]) + multiset{x}
    ensures forall j :: 0 <= j < |t| ==> key(s[0]) >= key(t[j])
  {
    forall j | 0 <= j < |t|
      ensures key(s[0]) >= key(t[j])
    {
      assert t[j] in multiset(t);
      if t[j] != x {
        assert t[j] in multiset(s[1..]);
        var k :| 0 <= k < |s[1..]| && s[1..][k] == t[j];
        assert s[k + 1] == t[j];
      }
    }
  }

  /** `sort_values(key, ascending=False)`: a non-increasing permutation of `s`. */
  function SortDesc<T(==)>(s: seq<T>, key: T -> real): (r: seq<T>)
    ensures SortedDesc(r, key)
    ensures multiset(r) == multiset(s)
    ensures |r| == |s|
  {
    if s == [] then []
    else
      assert s == [s[0]] + s[1..];
      InsertDesc(s[0], SortDesc(s[1..], key), key)
  }

  /** How many rows `head(k)` keeps out of `n`: a negative `k` drops the last `-k`. */
  function HeadCount(k: int, n: nat): (m: nat)
    ensures m <= n
    ensures k >= 0 ==> m == Min(k, n)
    ensures k < 0 ==> m == Max(n + k, 0)
  {
    if k >= 0 then Min(k, n) else Max(n + k, 0)
  }

  /** pandas `head(k)` (Python `s[:k]`). */
  function Head<T>(s: seq<T>, k: int): seq<T> {
    s[..HeadCount(k, |s|)]
  }

  /** Blocks laid end to end, as a nested loop appends its rows. */
  function Flatten<T>(blocks: seq<seq<T>>): seq<T> {
    if blocks == [] then [] else blocks[0] + Flatten(blocks[1..])
  }

  /** Every block has `D` rows. */
  ghost predicate Uniform<T>(blocks: seq<seq<T>>, D: nat) {
    forall i :: 0 <= i < |blocks| ==> |blocks[i]| == D
  }

  /** `T` blocks of `D` rows each make `T·D` rows. */
  lemma {:induction false} FlattenLength<T>(blocks: seq<seq<T>>, D: nat)
    requires Uniform(blocks, D)
    ensures |Flatten(blocks)| == |blocks| * D
  {
    if blocks != [] {
      FlattenLength(blocks[1..], D);
      assert |blocks| * D == D + (|blocks| - 1) * D;
    }
  }

  /** Row `j` of block `i` is row `i·D + j` of the flattened sequence. */
  lemma {:induction false} FlattenLayout<T>(blocks: seq<seq<T>>, D: nat, i: int, j: int)
    requires Uniform(blocks, D)
    requires 0 <= i < |blocks| && 0 <= j < D
    ensures 0 <= i * D + j < |Flatten(blocks)|
    ensures Flatten(blocks)[i * D + j] == blocks[i][j]
  {
    FlattenLength(blocks, D);
    GridIndexBound(i, j, |blocks|, D);
    var rest := blocks[1..];
    assert Flatten(blocks) == blocks[0] + Flatten(rest);
    if i > 0 {
      FlattenLayout(rest, D, i - 1, j);
      assert rest[i - 1] == blocks[i];
      BlockShift(i, j, D);
    } else {
      assert i * D + j == j;
    }
  }

  lemma GridIndexBound(i: int, j: int, T: nat, D: nat)
    requires 0 <= i < T && 0 <= j < D
    ensures 0 <= i * D + j < T * D
  {
    assert i * D + D == (i + 1) * D;
    assert (i + 1) * D <= T * D;
  }

  lemma BlockShift(i: int, j: int, D: nat)
    requires i > 0
    ensures i * D + j == (i - 1) * D + j + D
  {
  }
}
