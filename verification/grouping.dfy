/** Group-by-and-sum over (key, amount) pairs, the shape of
    `df.groupby(key)[amount].sum()`: one entry per distinct key, keys in
    ascending order, each carrying the sum of its group. */
module Grouping {
  import opened Orders

  /** Sum of all amounts. */
  function Sum<K>(s: seq<(K, int)>): int {
    if |s| == 0 then 0 else s[0].1 + Sum(s[1..])
  }

  /** Sum of the amounts filed under key `k`. */
  function SumOf<K(==)>(s: seq<(K, int)>, k: K): int {
    if |s| == 0 then 0 else (if s[0].0 == k then s[0].1 else 0) + SumOf(s[1..], k)
  }

  /** Number of entries filed under key `k`. */
  function CountOf<K(==)>(s: seq<(K, int)>, k: K): nat {
    if |s| == 0 then 0 else (if s[0].0 == k then 1 else 0) + CountOf(s[1..], k)
  }

  function Keys<K>(s: seq<(K, int)>): set<K> {
    if |s| == 0 then {} else {s[0].0} + Keys(s[1..])
  }

  ghost predicate StrictlyAscending<K>(g: seq<(K, int)>, lt: (K, K) -> bool) {
    forall i, j :: 0 <= i < j < |g| ==> lt(g[i].0, g[j].0)
  }

  lemma {:induction false} KeysIndex<K>(s: seq<(K, int)>, k: K)
    ensures k in Keys(s) <==> exists i :: 0 <= i < |s| && s[i].0 == k
  {
    if |s| > 0 {
      KeysIndex(s[1..], k);
      if k in Keys(s[1..]) {
        var i :| 0 <= i < |s[1..]| && s[1..][i].0 == k;
        assert s[i + 1].0 == k;
      }
      if exists i :: 0 <= i < |s| && s[i].0 == k {
        var i :| 0 <= i < |s| && s[i].0 == k;
        if i > 0 {
          assert s[1..][i - 1].0 == k;
        }
      }
    }
  }

  lemma {:induction false} SumOfAbsent<K>(s: seq<(K, int)>, k: K)
    requires k !in Keys(s)
    ensures SumOf(s, k) == 0
  {
    if |s| > 0 {
      SumOfAbsent(s[1..], k);
    }
  }

  /** In a grouped table each entry holds the whole sum for its key. */
  lemma {:induction false} EntryIsKeySum<K(!new)>(g: seq<(K, int)>, lt: (K, K) -> bool, i: nat)
    requires StrictTotalOrder(lt) && StrictlyAscending(g, lt)
    requires i < |g|
    ensures SumOf(g, g[i].0) == g[i].1
  {
    if i == 0 {
      assert g[0].0 !in Keys(g[1..]) by {
        KeysIndex(g[1..], g[0].0);
        assert forall j :: 0 <= j < |g[1..]| ==> lt(g[0].0, g[1..][j].0);
      }
      SumOfAbsent(g[1..], g[0].0);
    } else {
      assert lt(g[0].0, g[i].0);
      EntryIsKeySum(g[1..], lt, i - 1);
    }
  }

  /** A grouped table has exactly one entry per key. */
  lemma {:induction false} DistinctKeysCount<K(!new)>(g: seq<(K, int)>, lt: (K, K) -> bool)
    requires StrictTotalOrder(lt) && StrictlyAscending(g, lt)
    ensures |Keys(g)| == |g|
  {
    if |g| > 0 {
      assert g[0].0 !in Keys(g[1..]) by {
        KeysIndex(g[1..], g[0].0);
        assert forall j :: 0 <= j < |g[1..]| ==> lt(g[0].0, g[1..][j].0);
      }
      DistinctKeysCount(g[1..], lt);
    }
  }

  /** Adds amount `a` to key `k` of an ascending table, creating the entry
      in its sorted place when the key is new. */
  function AddTo<K(==,!new)>(g: seq<(K, int)>, k: K, a: int, lt: (K, K) -> bool): (r: seq<(K, int)>)
    requires StrictTotalOrder(lt) && StrictlyAscending(g, lt)
    ensures StrictlyAscending(r, lt)
    ensures Keys(r) == Keys(g) + {k}
    ensures Sum(r) == Sum(g) + a
    ensures forall j :: SumOf(r, j) == SumOf(g, j) + (if j == k then a else 0)
    ensures a > 0 && (forall i :: 0 <= i < |g| ==> g[i].1 > 0) ==> forall i :: 0 <= i < |r| ==> r[i].1 > 0
    decreases |g|
  {
    if |g| == 0 then
      [(k, a)]
    else if g[0].0 == k then
      assert g == [g[0]] + g[1..];
      [(k, g[0].1 + a)] + g[1..]
    else if lt(k, g[0].0) then
      assert g == [g[0]] + g[1..];
      [(k, a)] + g
    else
      var rest := AddTo(g[1..], k, a, lt);
      AddedAfterHead(g, k, rest, lt);
      [g[0]] + rest
  }

  lemma AddedAfterHead<K(!new)>(g: seq<(K, int)>, k: K, rest: seq<(K, int)>, lt: (K, K) -> bool)
    requires StrictTotalOrder(lt) && StrictlyAscending(g, lt)
    requires |g| > 0 && g[0].0 != k && !lt(k, g[0].0)
    requires StrictlyAscending(rest, lt) && Keys(rest) == Keys(g[1..]) + {k}
    ensures StrictlyAscending([g[0]] + rest, lt)
  {
    assert lt(g[0].0, k);
    forall j | 0 <= j < |rest| ensures lt(g[0].0, rest[j].0) {
      KeysIndex(rest, rest[j].0);
      if rest[j].0 != k {
        KeysIndex(g[1..], rest[j].0);
        var i :| 0 <= i < |g[1..]| && g[1..][i].0 == rest[j].0;
        assert lt(g[0].0, g[i + 1].0);
      }
    }
  }

  /** Groups the pairs by key and sums each group. */
  function GroupSum<K(==,!new)>(pairs: seq<(K, int)>, lt: (K, K) -> bool): (g: seq<(K, int)>)
    requires StrictTotalOrder(lt)
    ensures StrictlyAscending(g, lt)
    ensures Keys(g) == Keys(pairs)
    ensures Sum(g) == Sum(pairs)
    ensures forall k :: SumOf(g, k) == SumOf(pairs, k)
    ensures (forall i :: 0 <= i < |pairs| ==> pairs[i].1 > 0) ==> forall i :: 0 <= i < |g| ==> g[i].1 > 0
  {
    if |pairs| == 0 then
      []
    else
      AddTo(GroupSum(pairs[1..], lt), pairs[0].0, pairs[0].1, lt)
  }

  /** What a caller of `GroupSum` reads off the table: one entry per distinct
      key, each entry the total of its group. */
  lemma GroupSumEntries<K(!new)>(pairs: seq<(K, int)>, lt: (K, K) -> bool)
    requires StrictTotalOrder(lt)
    ensures |GroupSum(pairs, lt)| == |Keys(pairs)|
    ensures forall i :: 0 <= i < |GroupSum(pairs, lt)| ==>
      GroupSum(pairs, lt)[i].1 == SumOf(pairs, GroupSum(pairs, lt)[i].0)
  {
    var g := GroupSum(pairs, lt);
    DistinctKeysCount(g, lt);
    forall i | 0 <= i < |g| ensures g[i].1 == SumOf(pairs, g[i].0) {
      EntryIsKeySum(g, lt, i);
    }
  }

  /** When every amount is 1, a key's sum is the number of its entries. */
  lemma {:induction false} UnitSumIsCount<K>(pairs: seq<(K, int)>, k: K)
    requires forall i :: 0 <= i < |pairs| ==> pairs[i].1 == 1
    ensures SumOf(pairs, k) == CountOf(pairs, k)
    ensures Sum(pairs) == |pairs|
  {
    if |pairs| > 0 {
      UnitSumIsCount(pairs[1..], k);
    }
  }
}
