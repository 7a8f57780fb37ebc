/** The two statistics the cleaning pass imputes from: the median of a
    sample of integer ratings, rounded half to even as `np.round` does, and
    the mode of a sample of strings as `Series.mode()[0]` picks it. */
module Stats {
  import opened Orders
  import opened Sorting
  import opened Wrappers

  /** Number of elements of `s` strictly below `v`. */
  function CountBelow(s: seq<int>, v: int): nat {
    if |s| == 0 then 0 else (if s[0] < v then 1 else 0) + CountBelow(s[1..], v)
  }

  /** `v` is the element of rank `k` (counting from 0) of the sample: at
      most `k` elements lie strictly below it and more than `k` lie at or
      below it. No sorting is involved. */
  ghost predicate IsOrderStat(s: seq<int>, k: nat, v: int) {
    CountBelow(s, v) <= k < CountBelow(s, v + 1)
  }

  /** `lo` and `hi` are the two middle elements of the sample by rank (the
      same element when the sample has odd length). */
  ghost predicate IsMiddlePair(s: seq<int>, lo: int, hi: int) {
    |s| > 0 && IsOrderStat(s, (|s| - 1) / 2, lo) && IsOrderStat(s, |s| / 2, hi)
  }

  /** Twice the median of a non-empty sample. The median of integers is a
      multiple of one half (the middle element, or the mean of the two
      middle elements), so its double is an exact integer. */
  function TwiceMedian(s: seq<int>): (m: int)
    requires |s| > 0
    ensures exists lo, hi :: IsMiddlePair(s, lo, hi) && m == lo + hi
  {
    IntLessIsStrictTotalOrder();
    var t := Sort(s, IntLess);
    var lo, hi := t[(|t| - 1) / 2], t[|t| / 2];
    MiddleRanks(s, t);
    lo + hi
  }

  /** `t / 2` rounded to the nearest integer, ties to the even neighbour. */
  function HalfRoundEven(t: int): (r: int)
    ensures -1 <= 2 * r - t <= 1
    ensures (2 * r - t == 1 || 2 * r - t == -1) ==> r % 2 == 0
  {
    if t % 2 == 0 then t / 2
    else if (t / 2) % 2 == 0 then t / 2
    else t / 2 + 1
  }

  /** `np.round(median(s))`: within one half of the median, a tie going to
      the even neighbour. */
  function RoundedMedian(s: seq<int>): (r: int)
    requires |s| > 0
    ensures exists lo, hi ::
      && IsMiddlePair(s, lo, hi)
      && -1 <= 2 * r - (lo + hi) <= 1
      && (2 * r - (lo + hi) != 0 ==> r % 2 == 0)
  {
    HalfRoundEven(TwiceMedian(s))
  }

  /** The two middle elements of the sorted sample have the middle ranks of
      the sample itself. */
  lemma MiddleRanks(s: seq<int>, t: seq<int>)
    requires |s| > 0 && StrictTotalOrder(IntLess) && t == Sort(s, IntLess)
    ensures IsMiddlePair(s, t[(|t| - 1) / 2], t[|t| / 2])
  {
    RankInSorted(s, t, (|t| - 1) / 2);
    RankInSorted(s, t, |t| / 2);
  }

  /** The element at index `k` of a sorted permutation has rank `k` in the
      original sample. */
  lemma RankInSorted(s: seq<int>, t: seq<int>, k: nat)
    requires Sorted(t, IntLess) && multiset(t) == multiset(s) && k < |t|
    ensures IsOrderStat(s, k, t[k])
  {
    SortedRank(t, k);
    CountBelowPermutation(t, s, t[k]);
    CountBelowPermutation(t, s, t[k] + 1);
  }

  /** In an ascending sample the element at index `k` has rank `k`. */
  lemma {:induction false} SortedRank(t: seq<int>, k: nat)
    requires Sorted(t, IntLess) && k < |t|
    ensures IsOrderStat(t, k, t[k])
  {
    assert Sorted(t[1..], IntLess);
    if k == 0 {
      NoneBelow(t, t[0]);
    } else {
      assert !IntLess(t[k], t[0]);
      assert t[1..][k - 1] == t[k];
      SortedRank(t[1..], k - 1);
    }
  }

  lemma NoneBelow(t: seq<int>, v: int)
    requires Sorted(t, IntLess) && |t| > 0 && v == t[0]
    ensures CountBelow(t, v) == 0
  {
    NoneBelowFrom(t, v);
  }

  lemma {:induction false} NoneBelowFrom(t: seq<int>, v: int)
    requires forall i :: 0 <= i < |t| ==> v <= t[i]
    ensures CountBelow(t, v) == 0
  {
    if |t| > 0 {
      assert forall i :: 0 <= i < |t[1..]| ==> t[1..][i] == t[i + 1];
      NoneBelowFrom(t[1..], v);
    }
  }

  lemma {:induction false} CountBelowAppend(a: seq<int>, b: seq<int>, v: int)
    ensures CountBelow(a + b, v) == CountBelow(a, v) + CountBelow(b, v)
  {
    if |a| > 0 {
      assert (a + b)[1..] == a[1..] + b;
      CountBelowAppend(a[1..], b, v);
    } else {
      assert a + b == b;
    }
  }

  /** Counting does not depend on the order of the sample. */
  lemma {:induction false} CountBelowPermutation(a: seq<int>, b: seq<int>, v: int)
    requires multiset(a) == multiset(b)
    ensures CountBelow(a, v) == CountBelow(b, v)
    decreases |a|
  {
    if |a| == 0 {
      assert |multiset(b)| == 0;
    } else {
      var x := a[0];
      assert x in multiset(b);
      var i :| 0 <= i < |b| && b[i] == x;
      var rest := b[..i] + b[i + 1..];
      assert b == b[..i] + ([x] + b[i + 1..]);
      CountBelowAppend(b[..i], [x] + b[i + 1..], v);
      CountBelowAppend(b[..i], b[i + 1..], v);
      assert a == [x] + a[1..];
      RemoveAtMultiset(b, i);
      assert multiset(a) == multiset{x} + multiset(a[1..]) by {
        assert a == [x] + a[1..];
      }
      MultisetCancel(x, multiset(a[1..]), multiset(rest));
      CountBelowPermutation(a[1..], rest, v);
    }
  }

  /** Removing the element at index `i` removes one copy of it. */
  lemma RemoveAtMultiset(b: seq<int>, i: nat)
    requires i < |b|
    ensures multiset(b) == multiset{b[i]} + multiset(b[..i] + b[i + 1..])
  {
    assert b == b[..i] + [b[i]] + b[i + 1..];
  }

  lemma MultisetCancel(x: int, a: multiset<int>, b: multiset<int>)
    requires multiset{x} + a == multiset{x} + b
    ensures a == b
  {
    assert forall y :: a[y] == (multiset{x} + a)[y] - multiset{x}[y];
  }

  lemma {:induction false} CountBelowMonotone(s: seq<int>, v: int, w: int)
    requires v <= w
    ensures CountBelow(s, v) <= CountBelow(s, w)
  {
    if |s| > 0 {
      CountBelowMonotone(s[1..], v, w);
    }
  }

  /** Each rank is held by exactly one value, so the order-statistic
      description of the median pins it down. */
  lemma OrderStatUnique(s: seq<int>, k: nat, v: int, w: int)
    requires IsOrderStat(s, k, v) && IsOrderStat(s, k, w)
    ensures v == w
  {
    if v < w {
      CountBelowMonotone(s, v + 1, w);
    } else if w < v {
      CountBelowMonotone(s, w + 1, v);
    }
  }

  /** The median does not depend on the order of the sample. */
  lemma MedianPermutation(a: seq<int>, b: seq<int>)
    requires |a| > 0
    requires multiset(a) == multiset(b)
    ensures |b| > 0
    ensures TwiceMedian(a) == TwiceMedian(b)
    ensures RoundedMedian(a) == RoundedMedian(b)
  {
    IntLessIsStrictTotalOrder();
    assert |b| == |a| by {
      assert |multiset(a)| == |multiset(b)|;
    }
    SortPermutation(a, b, IntLess);
  }

  /** The two middle elements of the sorted sample are elements of it and
      lie between its bounds. */
  lemma MiddleElements(s: seq<int>) returns (lo: int, hi: int)
    requires |s| > 0
    ensures lo in s && hi in s && lo <= hi
    ensures TwiceMedian(s) == lo + hi
  {
    IntLessIsStrictTotalOrder();
    var t := Sort(s, IntLess);
    lo, hi := t[(|t| - 1) / 2], t[|t| / 2];
    assert lo in multiset(t) && hi in multiset(t);
    assert (|t| - 1) / 2 == |t| / 2 || !IntLess(t[|t| / 2], t[(|t| - 1) / 2]);
  }

  /** A sample inside [lo, hi] has its rounded median inside [lo, hi]: an
      imputed rating never leaves the range of the observed ones. */
  lemma MedianWithin(s: seq<int>, lo: int, hi: int)
    requires |s| > 0
    requires forall i :: 0 <= i < |s| ==> lo <= s[i] <= hi
    ensures lo <= RoundedMedian(s) <= hi
  {
    var a, b := MiddleElements(s);
  }

  /** The sample is constant: every element equals `v`. */
  lemma MedianOfConstant(s: seq<int>, v: int)
    requires |s| > 0
    requires forall i :: 0 <= i < |s| ==> s[i] == v
    ensures RoundedMedian(s) == v
  {
    var a, b := MiddleElements(s);
  }

  /** Shape of an insertion: a prefix of smaller elements, then `x`, then
      the rest. */
  lemma {:induction false} InsertSplit<T(!new)>(x: T, s: seq<T>, lt: (T, T) -> bool) returns (p: nat)
    requires StrictTotalOrder(lt) && Sorted(s, lt)
    ensures p <= |s|
    ensures Insert(x, s, lt) == s[..p] + [x] + s[p..]
    ensures forall i :: 0 <= i < p ==> lt(s[i], x)
    ensures forall i :: p <= i < |s| ==> !lt(s[i], x)
    decreases |s|
  {
    if |s| == 0 || !lt(s[0], x) {
      p := 0;
      assert s[..0] + [x] + s[0..] == [x] + s;
      if |s| > 0 {
        NoneSmallerAfterHead(x, s, lt);
      }
    } else {
      var q := InsertSplit(x, s[1..], lt);
      p := q + 1;
      SplitAfterHead(x, s, q, lt);
    }
  }

  /** When the head is not smaller than `x`, no element of a sorted sample is. */
  lemma NoneSmallerAfterHead<T(!new)>(x: T, s: seq<T>, lt: (T, T) -> bool)
    requires StrictTotalOrder(lt) && Sorted(s, lt)
    requires |s| > 0 && !lt(s[0], x)
    ensures forall i :: 0 <= i < |s| ==> !lt(s[i], x)
  {
    forall i | 0 < i < |s| ensures !lt(s[i], x) {
      assert !lt(s[i], s[0]);
      assert s[i] == s[0] || lt(s[0], s[i]);
      assert !(lt(s[0], s[i]) && lt(s[i], x));
    }
  }

  /** The split point of the tail, shifted by one past the head. */
  lemma SplitAfterHead<T>(x: T, s: seq<T>, q: nat, lt: (T, T) -> bool)
    requires |s| > 0 && q <= |s| - 1 && lt(s[0], x)
    requires forall i :: 0 <= i < q ==> lt(s[1..][i], x)
    requires forall i :: q <= i < |s| - 1 ==> !lt(s[1..][i], x)
    ensures [s[0]] + (s[1..][..q] + [x] + s[1..][q..]) == s[..q + 1] + [x] + s[q + 1..]
    ensures forall i :: 0 <= i < q + 1 ==> lt(s[i], x)
    ensures forall i :: q + 1 <= i < |s| ==> !lt(s[i], x)
  {
    assert s[..q + 1] == [s[0]] + s[1..][..q];
    assert s[q + 1..] == s[1..][q..];
    forall i | 0 < i < q + 1 ensures lt(s[i], x) {
      assert s[i] == s[1..][i - 1];
    }
    forall i | q + 1 <= i < |s| ensures !lt(s[i], x) {
      assert s[i] == s[1..][i - 1];
    }
  }

  /** Sorting a sample with one more element is inserting it into the sorted
      sample. */
  lemma SortAppend<T(!new)>(s: seq<T>, x: T, lt: (T, T) -> bool)
    requires StrictTotalOrder(lt)
    ensures Sort(s + [x], lt) == Insert(x, Sort(s, lt), lt)
  {
    SortedUnique(Insert(x, Sort(s, lt), lt), Sort(s + [x], lt), lt);
  }

  lemma Ascending(t: seq<int>)
    requires Sorted(t, IntLess)
    ensures forall i, j :: 0 <= i < j < |t| ==> t[i] <= t[j]
  {
    forall i, j | 0 <= i < j < |t| ensures t[i] <= t[j] {
      assert !IntLess(t[j], t[i]);
    }
  }

  /** Inserting `m` into a sorted sample whose middle elements enclose `m`
      (and equal it when the sample has odd length) puts `m` in the middle. */
  lemma InsertBetweenMiddles(t: seq<int>, m: int, p: nat)
    requires |t| > 0
    requires Sorted(t, IntLess)
    requires p <= |t|
    requires forall i :: 0 <= i < p ==> IntLess(t[i], m)
    requires forall i :: p <= i < |t| ==> !IntLess(t[i], m)
    requires m == HalfRoundEven(t[(|t| - 1) / 2] + t[|t| / 2])
    ensures var u := t[..p] + [m] + t[p..]; u[(|u| - 1) / 2] + u[|u| / 2] == 2 * m
  {
    var n := |t|;
    var u := t[..p] + [m] + t[p..];
    Ascending(t);
    assert t[(n - 1) / 2] <= m <= t[n / 2];
    assert p <= n / 2;
    assert u[n / 2] == m by {
      if p < n / 2 {
        assert u[n / 2] == t[n / 2 - 1];
      }
    }
    if n % 2 == 1 {
      assert u[n / 2 + 1] == t[n / 2];
    }
  }

  /** Adding the rounded median back to the sample leaves the rounded median
      where it was. */
  lemma MedianFixedPoint(s: seq<int>)
    requires |s| > 0
    ensures RoundedMedian(s + [RoundedMedian(s)]) == RoundedMedian(s)
  {
    IntLessIsStrictTotalOrder();
    var t := Sort(s, IntLess);
    var m := RoundedMedian(s);
    assert m == HalfRoundEven(t[(|t| - 1) / 2] + t[|t| / 2]);
    InsertedMedian(t, m);
    SortAppend(s, m, IntLess);
    MedianOfSorted(s + [m], Insert(m, t, IntLess), m);
  }

  /** Inserting the rounded median of a sorted sample puts it in the middle
      of the longer sample. */
  lemma InsertedMedian(t: seq<int>, m: int)
    requires |t| > 0 && Sorted(t, IntLess)
    requires m == HalfRoundEven(t[(|t| - 1) / 2] + t[|t| / 2])
    ensures var u := Insert(m, t, IntLess); |u| == |t| + 1 && u[(|u| - 1) / 2] + u[|u| / 2] == 2 * m
  {
    IntLessIsStrictTotalOrder();
    var p := InsertSplit(m, t, IntLess);
    InsertBetweenMiddles(t, m, p);
  }

  lemma MedianOfSorted(s: seq<int>, u: seq<int>, m: int)
    requires |s| > 0
    requires Sort(s, IntLess) == u
    requires u[(|u| - 1) / 2] + u[|u| / 2] == 2 * m
    ensures RoundedMedian(s) == m
  {
  }

  /** `n` copies of `v`. */
  function Copies(v: int, n: nat): (r: seq<int>)
    ensures |r| == n
    ensures forall i :: 0 <= i < n ==> r[i] == v
  {
    if n == 0 then [] else Copies(v, n - 1) + [v]
  }

  /** Adding any number of copies of the rounded median to the sample, in any
      order, leaves the rounded median where it was. */
  lemma {:induction false} MedianWithCopies(s: seq<int>, x: seq<int>, n: nat)
    requires |s| > 0
    requires multiset(x) == multiset(s) + multiset(Copies(RoundedMedian(s), n))
    ensures |x| > 0
    ensures RoundedMedian(x) == RoundedMedian(s)
    decreases n
  {
    var m := RoundedMedian(s);
    if n == 0 {
      MedianPermutation(s, x);
    } else {
      var y := s + Copies(m, n - 1);
      MedianWithCopies(s, y, n - 1);
      MedianFixedPoint(y);
      assert multiset(x) == multiset(y + [m]);
      MedianPermutation(y + [m], x);
    }
  }

  /** Number of occurrences of `v`. */
  function Count(vals: seq<string>, v: string): nat {
    multiset(vals)[v]
  }

  /** `m` is a most frequent value of `vals`, and the smallest (in string
      order) of the values that are that frequent. */
  ghost predicate IsMode(vals: seq<string>, m: string) {
    && m in vals
    && (forall v :: Count(vals, v) <= Count(vals, m))
    && (forall v :: v in vals && Count(vals, v) == Count(vals, m) ==> !LexLess(v, m))
  }

  /** The most frequent of the candidates, counted in `vals`, ties to the
      smallest. */
  function MostFrequent(cands: seq<string>, vals: seq<string>): (m: string)
    requires |cands| > 0
    ensures m in cands
    ensures forall c :: c in cands ==> Count(vals, c) <= Count(vals, m)
    ensures forall c :: c in cands && Count(vals, c) == Count(vals, m) ==> !LexLess(c, m)
  {
    if |cands| == 1 then
      LexLessIrreflexive(cands[0]);
      cands[0]
    else
      var b := MostFrequent(cands[1..], vals);
      var c := cands[0];
      assert cands == [c] + cands[1..];
      if Count(vals, c) > Count(vals, b) || (Count(vals, c) == Count(vals, b) && LexLess(c, b)) then
        LexLessIsStrictTotalOrder();
        c
      else
        b
  }

  /** `Series.mode()[0]` over the non-missing values; `None` when there are
      none (pandas returns an empty Series and the code yields NaN). */
  function Mode(vals: seq<string>): (r: Option<string>)
    ensures r.None? <==> |vals| == 0
    ensures r.Some? ==> IsMode(vals, r.value)
  {
    if |vals| == 0 then None else Some(MostFrequent(vals, vals))
  }

  /** The mode is the only value with the mode property. */
  lemma ModeCharacterized(vals: seq<string>, m: string)
    ensures Mode(vals) == Some(m) <==> IsMode(vals, m)
  {
    if IsMode(vals, m) {
      var m' := Mode(vals).value;
      assert Count(vals, m) == Count(vals, m');
      if m != m' {
        LexLessConnected(m, m');
      }
    }
  }
}
