/**
 * Counting records into consecutive numbered buckets (months, days): the
 * zero-filled time series of the analytics and statistics routes.  A
 * record "hits" bucket `k` according to a caller-supplied relation; when
 * no record hits two buckets, the bucket counts add up to the number of
 * records that hit any bucket of the window.
 */
module Buckets {

  /** The number of elements of `s` that hit bucket `k`. */
  function CountHits<T>(s: seq<T>, hit: (T, int) -> bool, k: int): (r: nat)
    ensures r <= |s|
    decreases |s|
  {
    if |s| == 0 then 0 else CountHits(s[..|s| - 1], hit, k) + (if hit(s[|s| - 1], k) then 1 else 0)
  }

  /** A single element counts once in exactly the buckets it hits. */
  lemma {:induction false} CountHitsOne<T>(x: T, hit: (T, int) -> bool, k: int)
    ensures CountHits([x], hit, k) == if hit(x, k) then 1 else 0
  {
    assert [x][..0] == [];
  }

  /** `x` hits one of the `n` buckets `first`, ..., `first + n - 1`. */
  predicate HitsWithin<T>(x: T, hit: (T, int) -> bool, first: int, n: nat)
    decreases n
  {
    n > 0 && (HitsWithin(x, hit, first, n - 1) || hit(x, first + n - 1))
  }

  /** The number of elements of `s` that hit some bucket of the window. */
  function CountWithin<T>(s: seq<T>, hit: (T, int) -> bool, first: int, n: nat): (r: nat)
    ensures r <= |s|
    decreases |s|
  {
    if |s| == 0 then 0
    else CountWithin(s[..|s| - 1], hit, first, n) + (if HitsWithin(s[|s| - 1], hit, first, n) then 1 else 0)
  }

  /** The counts of the buckets `first`, ..., `first + n - 1`, oldest first, zero where nothing hits. */
  function Histogram<T>(s: seq<T>, hit: (T, int) -> bool, first: int, n: nat): (r: seq<nat>)
    ensures |r| == n
    ensures forall j :: 0 <= j < n ==> r[j] == CountHits(s, hit, first + j)
  {
    seq<nat>(n, j requires 0 <= j < n => CountHits(s, hit, first + j))
  }

  function Sum(s: seq<nat>): nat
    decreases |s|
  {
    if |s| == 0 then 0 else Sum(s[..|s| - 1]) + s[|s| - 1]
  }

  /** No element of `s` hits two different buckets. */
  ghost predicate Exclusive<T>(s: seq<T>, hit: (T, int) -> bool) {
    forall i, a, b :: 0 <= i < |s| && hit(s[i], a) && hit(s[i], b) ==> a == b
  }

  lemma {:induction false} HitsWithinRange<T>(x: T, hit: (T, int) -> bool, first: int, n: nat)
    requires HitsWithin(x, hit, first, n)
    ensures exists k :: first <= k < first + n && hit(x, k)
    decreases n
  {
    if !hit(x, first + n - 1) {
      HitsWithinRange(x, hit, first, n - 1);
    }
  }

  /** Growing the window by one bucket adds that bucket's count, when buckets are exclusive. */
  lemma {:induction false} CountWithinStep<T>(s: seq<T>, hit: (T, int) -> bool, first: int, n: nat)
    requires Exclusive(s, hit)
    ensures CountWithin(s, hit, first, n + 1) == CountWithin(s, hit, first, n) + CountHits(s, hit, first + n)
    decreases |s|
  {
    if |s| > 0 {
      var pre := s[..|s| - 1];
      var x := s[|s| - 1];
      assert Exclusive(pre, hit) by {
        forall i, a, b | 0 <= i < |pre| && hit(pre[i], a) && hit(pre[i], b) ensures a == b {
          assert pre[i] == s[i];
        }
      }
      CountWithinStep(pre, hit, first, n);
      if HitsWithin(x, hit, first, n) && hit(x, first + n) {
        HitsWithinRange(x, hit, first, n);
        assert false;
      }
    }
  }

  /** With exclusive buckets the histogram counts each record of the window exactly once. */
  lemma {:induction false} HistogramSum<T>(s: seq<T>, hit: (T, int) -> bool, first: int, n: nat)
    requires Exclusive(s, hit)
    ensures Sum(Histogram(s, hit, first, n)) == CountWithin(s, hit, first, n)
    decreases n
  {
    if n == 0 {
      ZeroWindow(s, hit, first);
    } else {
      var h := Histogram(s, hit, first, n);
      assert h[..n - 1] == Histogram(s, hit, first, n - 1);
      HistogramSum(s, hit, first, n - 1);
      CountWithinStep(s, hit, first, n - 1);
    }
  }

  lemma {:induction false} ZeroWindow<T>(s: seq<T>, hit: (T, int) -> bool, first: int)
    ensures CountWithin(s, hit, first, 0) == 0
    decreases |s|
  {
    if |s| > 0 {
      ZeroWindow(s[..|s| - 1], hit, first);
    }
  }

  /** A relation that hits no more often than another never gives a larger count. */
  lemma {:induction false} CountHitsMonotone<T>(s: seq<T>, small: (T, int) -> bool, big: (T, int) -> bool, k: int)
    requires forall i :: 0 <= i < |s| && small(s[i], k) ==> big(s[i], k)
    ensures CountHits(s, small, k) <= CountHits(s, big, k)
    decreases |s|
  {
    if |s| > 0 {
      var pre := s[..|s| - 1];
      assert forall i :: 0 <= i < |pre| ==> pre[i] == s[i];
      CountHitsMonotone(pre, small, big, k);
    }
  }

  lemma {:induction false} CountHitsConcat<T>(a: seq<T>, b: seq<T>, hit: (T, int) -> bool, k: int)
    ensures CountHits(a + b, hit, k) == CountHits(a, hit, k) + CountHits(b, hit, k)
    decreases |b|
  {
    if |b| == 0 {
      assert a + b == a;
    } else {
      var b' := b[..|b| - 1];
      assert (a + b)[..|a + b| - 1] == a + b';
      CountHitsConcat(a, b', hit, k);
    }
  }

  // ---------------------------------------------------------------- listed keys

  /** `x` hits one of the buckets listed in `keys`. */
  predicate HitsAny<T>(x: T, hit: (T, int) -> bool, keys: seq<int>)
    decreases |keys|
  {
    |keys| > 0 && (HitsAny(x, hit, keys[..|keys| - 1]) || hit(x, keys[|keys| - 1]))
  }

  /** The number of elements of `s` that hit some listed bucket. */
  function CountAny<T>(s: seq<T>, hit: (T, int) -> bool, keys: seq<int>): (r: nat)
    ensures r <= |s|
    decreases |s|
  {
    if |s| == 0 then 0
    else CountAny(s[..|s| - 1], hit, keys) + (if HitsAny(s[|s| - 1], hit, keys) then 1 else 0)
  }

  /** The counts of the listed buckets, in the order listed; a key listed twice is counted twice. */
  function KeyHistogram<T>(s: seq<T>, hit: (T, int) -> bool, keys: seq<int>): (r: seq<nat>)
    ensures |r| == |keys|
    ensures forall j :: 0 <= j < |keys| ==> r[j] == CountHits(s, hit, keys[j])
  {
    seq<nat>(|keys|, j requires 0 <= j < |keys| => CountHits(s, hit, keys[j]))
  }

  /** No key is listed twice. */
  predicate Distinct(keys: seq<int>) {
    forall i, j :: 0 <= i < j < |keys| ==> keys[i] != keys[j]
  }

  lemma {:induction false} HitsAnyListed<T>(x: T, hit: (T, int) -> bool, keys: seq<int>)
    requires HitsAny(x, hit, keys)
    ensures exists j :: 0 <= j < |keys| && hit(x, keys[j])
    decreases |keys|
  {
    var pre := keys[..|keys| - 1];
    if !hit(x, keys[|keys| - 1]) {
      HitsAnyListed(x, hit, pre);
      var j :| 0 <= j < |pre| && hit(x, pre[j]);
      assert keys[j] == pre[j];
    }
  }

  /** Listing one more key, new to the list, adds that bucket's count, when buckets are exclusive. */
  lemma {:induction false} CountAnyStep<T>(s: seq<T>, hit: (T, int) -> bool, keys: seq<int>, k: int)
    requires Exclusive(s, hit)
    requires forall j :: 0 <= j < |keys| ==> keys[j] != k
    ensures CountAny(s, hit, keys + [k]) == CountAny(s, hit, keys) + CountHits(s, hit, k)
    decreases |s|
  {
    if |s| > 0 {
      var pre := s[..|s| - 1];
      var x := s[|s| - 1];
      assert Exclusive(pre, hit) by {
        forall i, a, b | 0 <= i < |pre| && hit(pre[i], a) && hit(pre[i], b) ensures a == b {
          assert pre[i] == s[i];
        }
      }
      CountAnyStep(pre, hit, keys, k);
      assert (keys + [k])[..|keys|] == keys;
      if HitsAny(x, hit, keys) && hit(x, k) {
        HitsAnyListed(x, hit, keys);
        assert false;
      }
    }
  }

  /** With exclusive buckets and no key listed twice, the listed counts add up to the records that hit any of them. */
  lemma {:induction false} KeyHistogramSum<T>(s: seq<T>, hit: (T, int) -> bool, keys: seq<int>)
    requires Exclusive(s, hit)
    requires Distinct(keys)
    ensures Sum(KeyHistogram(s, hit, keys)) == CountAny(s, hit, keys)
    decreases |keys|
  {
    if |keys| == 0 {
      NoKeys(s, hit);
    } else {
      var pre := keys[..|keys| - 1];
      var k := keys[|keys| - 1];
      var h := KeyHistogram(s, hit, keys);
      assert h[..|keys| - 1] == KeyHistogram(s, hit, pre);
      assert Distinct(pre);
      KeyHistogramSum(s, hit, pre);
      assert pre + [k] == keys;
      CountAnyStep(s, hit, pre, k);
    }
  }

  lemma {:induction false} NoKeys<T>(s: seq<T>, hit: (T, int) -> bool)
    ensures CountAny(s, hit, []) == 0
    decreases |s|
  {
    if |s| > 0 {
      NoKeys(s[..|s| - 1], hit);
    }
  }

  /** A sum is at least any one of its terms. */
  lemma {:induction false} SumAtLeast(s: seq<nat>, i: int)
    requires 0 <= i < |s|
    ensures Sum(s) >= s[i]
    decreases |s|
  {
    if i < |s| - 1 {
      var pre := s[..|s| - 1];
      SumAtLeast(pre, i);
      assert pre[i] == s[i];
    }
  }

  /** A sum is at least any two of its terms. */
  lemma {:induction false} SumAtLeastTwo(s: seq<nat>, i: int, j: int)
    requires 0 <= i < j < |s|
    ensures Sum(s) >= s[i] + s[j]
    decreases |s|
  {
    var pre := s[..|s| - 1];
    assert pre[i] == s[i];
    if j == |s| - 1 {
      SumAtLeast(pre, i);
    } else {
      SumAtLeastTwo(pre, i, j);
      assert pre[j] == s[j];
    }
  }
}
