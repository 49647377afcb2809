/**
 * Generic list operations written as left folds, the shape of JavaScript's
 * `forEach`/`filter` loops: filtering, subsequences, counting and keeping
 * the first element of each key.
 */
module Seqs {
  import opened Wrappers

  /** `a` can be obtained from `b` by deleting elements, order kept. */
  predicate IsSubsequence<T(==)>(a: seq<T>, b: seq<T>)
    decreases |b|
  {
    if |a| == 0 then true
    else if |b| == 0 then false
    else if a[|a| - 1] == b[|b| - 1] && IsSubsequence(a[..|a| - 1], b[..|b| - 1]) then true
    else IsSubsequence(a, b[..|b| - 1])
  }

  lemma {:induction false} SubsequenceRefl<T>(s: seq<T>)
    ensures IsSubsequence(s, s)
    decreases |s|
  {
    if |s| > 0 {
      SubsequenceRefl(s[..|s| - 1]);
    }
  }

  lemma {:induction false} SubsequenceTrans<T>(a: seq<T>, b: seq<T>, c: seq<T>)
    requires IsSubsequence(a, b) && IsSubsequence(b, c)
    ensures IsSubsequence(a, c)
    decreases |c|
  {
    if |a| > 0 {
      var c' := c[..|c| - 1];
      if b[|b| - 1] == c[|c| - 1] && IsSubsequence(b[..|b| - 1], c') {
        if a[|a| - 1] == b[|b| - 1] && IsSubsequence(a[..|a| - 1], b[..|b| - 1]) {
          SubsequenceTrans(a[..|a| - 1], b[..|b| - 1], c');
        } else {
          SubsequenceTrans(a, b[..|b| - 1], c');
        }
      } else {
        SubsequenceTrans(a, b, c');
      }
    }
  }

  /** Every element of a subsequence comes from the longer sequence. */
  lemma {:induction false} SubsequenceMembers<T>(a: seq<T>, b: seq<T>)
    requires IsSubsequence(a, b)
    ensures forall x :: x in a ==> x in b
    decreases |b|
  {
    if |a| > 0 {
      var b' := b[..|b| - 1];
      if a[|a| - 1] == b[|b| - 1] && IsSubsequence(a[..|a| - 1], b') {
        SubsequenceMembers(a[..|a| - 1], b');
        assert a == a[..|a| - 1] + [a[|a| - 1]];
        assert b == b' + [b[|b| - 1]];
      } else {
        SubsequenceMembers(a, b');
        assert b == b' + [b[|b| - 1]];
      }
    }
  }

  lemma {:induction false} SubsequenceAppend<T>(a: seq<T>, b: seq<T>, x: T)
    requires IsSubsequence(a, b)
    ensures IsSubsequence(a + [x], b + [x]) && IsSubsequence(a, b + [x])
  {
    assert (a + [x])[..|a|] == a;
    assert (b + [x])[..|b|] == b;
  }

  /** `s.filter(keep)`. */
  function Filter<T(==)>(s: seq<T>, keep: T -> bool): (r: seq<T>)
    ensures |r| <= |s|
    ensures forall i :: 0 <= i < |r| ==> r[i] in s && keep(r[i])
    ensures forall i :: 0 <= i < |s| && keep(s[i]) ==> s[i] in r
    ensures IsSubsequence(r, s)
    decreases |s|
  {
    if |s| == 0 then []
    else
      var r := Filter(s[..|s| - 1], keep);
      assert s == s[..|s| - 1] + [s[|s| - 1]];
      SubsequenceAppend(r, s[..|s| - 1], s[|s| - 1]);
      if keep(s[|s| - 1]) then r + [s[|s| - 1]] else r
  }

  /** Filtering a concatenation filters each part. */
  lemma {:induction false} FilterConcat<T>(a: seq<T>, b: seq<T>, keep: T -> bool)
    ensures Filter(a + b, keep) == Filter(a, keep) + Filter(b, keep)
    decreases |b|
  {
    if |b| == 0 {
      assert a + b == a;
    } else {
      var b' := b[..|b| - 1];
      assert (a + b)[..|a + b| - 1] == a + b';
      FilterConcat(a, b', keep);
    }
  }

  /** Filtering keeps every copy of an element that passes and no copy of one that fails. */
  lemma {:induction false} FilterMultiset<T>(s: seq<T>, keep: T -> bool, x: T)
    ensures multiset(Filter(s, keep))[x] == if keep(x) then multiset(s)[x] else 0
    decreases |s|
  {
    if |s| > 0 {
      var pre := s[..|s| - 1];
      assert s == pre + [s[|s| - 1]];
      FilterMultiset(pre, keep, x);
    }
  }

  /** A filter that every element passes keeps the whole sequence. */
  lemma {:induction false} FilterKeepsAll<T>(s: seq<T>, keep: T -> bool)
    requires forall i :: 0 <= i < |s| ==> keep(s[i])
    ensures Filter(s, keep) == s
    decreases |s|
  {
    if |s| > 0 {
      FilterKeepsAll(s[..|s| - 1], keep);
    }
  }

  /** Two tests that agree on every element filter alike. */
  lemma {:induction false} FilterSame<T>(s: seq<T>, p: T -> bool, q: T -> bool)
    requires forall x :: p(x) == q(x)
    ensures Filter(s, p) == Filter(s, q)
    decreases |s|
  {
    if |s| > 0 {
      FilterSame(s[..|s| - 1], p, q);
    }
  }

  /** The number of elements of `s` that satisfy `p`. */
  function Count<T(==)>(s: seq<T>, p: T -> bool): nat {
    |Filter(s, p)|
  }

  lemma {:induction false} CountConcat<T>(a: seq<T>, b: seq<T>, p: T -> bool)
    ensures Count(a + b, p) == Count(a, p) + Count(b, p)
  {
    FilterConcat(a, b, p);
  }

  /** Every element either passes a test or fails it. */
  lemma {:induction false} CountComplement<T>(s: seq<T>, p: T -> bool, q: T -> bool)
    requires forall x :: q(x) == !p(x)
    ensures Count(s, p) + Count(s, q) == |s|
    decreases |s|
  {
    if |s| > 0 {
      CountComplement(s[..|s| - 1], p, q);
    }
  }

  /** Some element of `s` has key `k`. */
  predicate HasKey<T, K(==)>(s: seq<T>, key: T -> K, k: K) {
    exists i :: 0 <= i < |s| && key(s[i]) == k
  }

  lemma HasKeyAppend<T, K>(s: seq<T>, x: T, key: T -> K, k: K)
    ensures HasKey(s + [x], key, k) <==> HasKey(s, key, k) || key(x) == k
  {
    if HasKey(s + [x], key, k) {
      var i :| 0 <= i < |s| + 1 && key((s + [x])[i]) == k;
      if i < |s| {
        assert key(s[i]) == k;
      }
    }
    if HasKey(s, key, k) {
      var i :| 0 <= i < |s| && key(s[i]) == k;
      assert (s + [x])[i] == s[i];
    }
    assert (s + [x])[|s|] == x;
  }

  /** No two elements of `s` share a key. */
  predicate DistinctKeys<T, K(==)>(s: seq<T>, key: T -> K) {
    forall i, j :: 0 <= i < j < |s| ==> key(s[i]) != key(s[j])
  }

  /** The first element of `s` whose key is `k`, if any. */
  function FirstWith<T, K(==)>(s: seq<T>, key: T -> K, k: K): (r: Option<T>)
    ensures r.Some? <==> HasKey(s, key, k)
    ensures r.Some? ==> r.value in s && key(r.value) == k
    decreases |s|
  {
    if |s| == 0 then None
    else
      var pre := s[..|s| - 1];
      assert s == pre + [s[|s| - 1]];
      HasKeyAppend(pre, s[|s| - 1], key, k);
      match FirstWith(pre, key, k)
      case Some(x) => Some(x)
      case None => if key(s[|s| - 1]) == k then Some(s[|s| - 1]) else None
  }

  /** Extending a sequence does not change the first element of a key already present. */
  lemma {:induction false} FirstWithExtend<T, K>(s: seq<T>, t: seq<T>, key: T -> K, k: K)
    requires HasKey(s, key, k)
    ensures FirstWith(s + t, key, k) == FirstWith(s, key, k)
    decreases |t|
  {
    if |t| > 0 {
      assert (s + t)[..|s + t| - 1] == s + t[..|t| - 1];
      FirstWithExtend(s, t[..|t| - 1], key, k);
    } else {
      assert s + t == s;
    }
  }

  /**
   * The elements of `s` whose key has not been seen earlier, in order:
   * `s.filter((x, i, self) => i === self.findIndex(y => key(y) === key(x)))`.
   */
  function DedupBy<T(==), K(==)>(s: seq<T>, key: T -> K): (r: seq<T>)
    ensures IsSubsequence(r, s)
    ensures DistinctKeys(r, key)
    ensures forall i :: 0 <= i < |s| ==> HasKey(r, key, key(s[i]))
    ensures forall i :: 0 <= i < |r| ==> FirstWith(s, key, key(r[i])) == Some(r[i])
    decreases |s|
  {
    if |s| == 0 then []
    else
      var pre := s[..|s| - 1];
      var x := s[|s| - 1];
      var d := DedupBy(pre, key);
      assert s == pre + [x];
      SubsequenceAppend(d, pre, x);
      DedupKeys(pre, x, d, key);
      DedupFirst(pre, x, d, key);
      if HasKey(d, key, key(x)) then d else d + [x]
  }

  lemma DedupKeys<T, K>(pre: seq<T>, x: T, d: seq<T>, key: T -> K)
    requires DistinctKeys(d, key) && forall i :: 0 <= i < |pre| ==> HasKey(d, key, key(pre[i]))
    ensures var r := if HasKey(d, key, key(x)) then d else d + [x];
            && DistinctKeys(r, key)
            && forall i :: 0 <= i < |pre + [x]| ==> HasKey(r, key, key((pre + [x])[i]))
  {
    var r := if HasKey(d, key, key(x)) then d else d + [x];
    forall i | 0 <= i < |pre + [x]|
      ensures HasKey(r, key, key((pre + [x])[i]))
    {
      HasKeyAppend(d, x, key, key((pre + [x])[i]));
      if i < |pre| {
        assert (pre + [x])[i] == pre[i];
      }
    }
    if !HasKey(d, key, key(x)) {
      forall i, j | 0 <= i < j < |r|
        ensures key(r[i]) != key(r[j])
      {
        if j == |d| {
          assert r[i] == d[i];
        } else {
          assert r[i] == d[i] && r[j] == d[j];
        }
      }
    }
  }

  lemma DedupFirst<T, K>(pre: seq<T>, x: T, d: seq<T>, key: T -> K)
    requires IsSubsequence(d, pre)
    requires forall i :: 0 <= i < |pre| ==> HasKey(d, key, key(pre[i]))
    requires forall i :: 0 <= i < |d| ==> FirstWith(pre, key, key(d[i])) == Some(d[i])
    ensures var r := if HasKey(d, key, key(x)) then d else d + [x];
            forall i :: 0 <= i < |r| ==> FirstWith(pre + [x], key, key(r[i])) == Some(r[i])
  {
    forall i | 0 <= i < |d|
      ensures FirstWith(pre + [x], key, key(d[i])) == Some(d[i])
    {
      FirstWithExtend(pre, [x], key, key(d[i]));
    }
    if !HasKey(d, key, key(x)) {
      var s := pre + [x];
      assert s[..|s| - 1] == pre;
      assert !HasKey(pre, key, key(x));
      assert FirstWith(s, key, key(x)) == Some(x);
      var r := d + [x];
      forall i | 0 <= i < |r|
        ensures FirstWith(s, key, key(r[i])) == Some(r[i])
      {
        if i < |d| {
          assert r[i] == d[i];
        }
      }
    }
  }

  /** The position of the first element of `s` whose key is `k`; `|s|` when there is none. */
  function FirstIndex<T, K(==)>(s: seq<T>, key: T -> K, k: K): (r: nat)
    ensures r <= |s|
    ensures forall j :: 0 <= j < r ==> key(s[j]) != k
    ensures r < |s| ==> key(s[r]) == k
    decreases |s|
  {
    if |s| == 0 then 0
    else if key(s[0]) == k then 0
    else
      var r := FirstIndex(s[1..], key, k);
      assert forall j :: 1 <= j < 1 + r ==> s[1..][j - 1] == s[j];
      1 + r
  }

  /** A key that occurs keeps its first position when the sequence grows. */
  lemma {:induction false} FirstIndexExtend<T, K>(s: seq<T>, x: T, key: T -> K, k: K)
    requires HasKey(s, key, k)
    ensures FirstIndex(s, key, k) < |s|
    ensures FirstIndex(s + [x], key, k) == FirstIndex(s, key, k)
  {
    var m :| 0 <= m < |s| && key(s[m]) == k;
    var a := FirstIndex(s, key, k);
    assert a <= m;
    assert (s + [x])[a] == s[a];
    var b := FirstIndex(s + [x], key, k);
    assert b <= a;
    assert (s + [x])[b] == s[b];
  }

  /** A key that does not occur is first found at the element appended. */
  lemma {:induction false} FirstIndexNew<T, K>(s: seq<T>, x: T, key: T -> K)
    requires !HasKey(s, key, key(x))
    ensures FirstIndex(s + [x], key, key(x)) == |s|
  {
    assert (s + [x])[|s|] == x;
    forall j | 0 <= j < |s|
      ensures key((s + [x])[j]) != key(x)
    {
      assert (s + [x])[j] == s[j];
    }
  }

  /** The deduplicated elements come in the order in which their keys first appear. */
  lemma {:induction false} DedupByOrder<T, K>(s: seq<T>, key: T -> K)
    ensures InFirstOrder(DedupBy(s, key), s, key)
    decreases |s|
  {
    if |s| > 0 {
      var pre, x := s[..|s| - 1], s[|s| - 1];
      assert pre + [x] == s;
      DedupByOrder(pre, key);
      DedupOrderNext(pre, x, key);
    }
  }

  lemma {:induction false} DedupOrderNext<T, K>(pre: seq<T>, x: T, key: T -> K)
    requires InFirstOrder(DedupBy(pre, key), pre, key)
    ensures InFirstOrder(DedupBy(pre + [x], key), pre + [x], key)
  {
    var s := pre + [x];
    var d := DedupBy(pre, key);
    DedupAppend(pre, x, key);
    assert HasKey(pre, key, key(x)) ==> HasKey(d, key, key(x));
    DedupOrderStep(pre, x, d, key);
  }

  /** `r` lists its keys in the order in which they first appear in `s`. */
  ghost predicate InFirstOrder<T, K>(r: seq<T>, s: seq<T>, key: T -> K) {
    forall i, j :: 0 <= i < j < |r| ==> FirstIndex(s, key, key(r[i])) < FirstIndex(s, key, key(r[j]))
  }

  /** One more element: the order of first appearances survives `DedupBy`'s step. */
  lemma {:induction false} DedupOrderStep<T, K>(pre: seq<T>, x: T, d: seq<T>, key: T -> K)
    requires InFirstOrder(d, pre, key)
    requires forall i :: 0 <= i < |d| ==> FirstWith(pre, key, key(d[i])) == Some(d[i])
    requires HasKey(pre, key, key(x)) ==> HasKey(d, key, key(x))
    ensures InFirstOrder(if HasKey(d, key, key(x)) then d else d + [x], pre + [x], key)
  {
    var s := pre + [x];
    var r := if HasKey(d, key, key(x)) then d else d + [x];
    forall i, j | 0 <= i < j < |r|
      ensures FirstIndex(s, key, key(r[i])) < FirstIndex(s, key, key(r[j]))
    {
      assert r[i] == d[i];
      FirstIndexExtend(pre, x, key, key(d[i]));
      if j < |d| {
        assert r[j] == d[j];
        FirstIndexExtend(pre, x, key, key(d[j]));
      } else {
        FirstIndexNew(pre, x, key);
      }
    }
  }

  /** Deduplicating a sequence whose keys are already distinct changes nothing. */
  lemma {:induction false} DedupDistinct<T, K>(s: seq<T>, key: T -> K)
    requires DistinctKeys(s, key)
    ensures DedupBy(s, key) == s
    decreases |s|
  {
    if |s| > 0 {
      var pre := s[..|s| - 1];
      var x := s[|s| - 1];
      assert DistinctKeys(pre, key);
      DedupDistinct(pre, key);
      forall i | 0 <= i < |pre|
        ensures key(pre[i]) != key(x)
      {
        assert pre[i] == s[i];
      }
      assert !HasKey(pre, key, key(x));
      assert s == pre + [x];
      DedupAppend(pre, x, key);
    }
  }

  /** `DedupBy`'s step, for a sequence written as its front and its last element. */
  lemma {:induction false} DedupAppend<T, K>(pre: seq<T>, x: T, key: T -> K)
    ensures var d := DedupBy(pre, key);
            DedupBy(pre + [x], key) == if HasKey(d, key, key(x)) then d else d + [x]
  {
    assert (pre + [x])[..|pre|] == pre;
  }

  /** Deduplication is idempotent. */
  lemma {:induction false} DedupIdempotent<T, K>(s: seq<T>, key: T -> K)
    ensures DedupBy(DedupBy(s, key), key) == DedupBy(s, key)
  {
    DedupDistinct(DedupBy(s, key), key);
  }

  /** One more element either leaves the deduplicated sequence as it was or is appended to it. */
  lemma {:induction false} DedupStep<T, K>(s: seq<T>, key: T -> K)
    requires |s| > 0
    ensures var d := DedupBy(s[..|s| - 1], key);
            DedupBy(s, key) == d || DedupBy(s, key) == d + [s[|s| - 1]]
  {
  }

  /** Deduplicating a longer sequence keeps, at the front, what deduplicating its start kept. */
  lemma {:induction false} DedupPrefix<T, K>(s: seq<T>, t: seq<T>, key: T -> K)
    ensures |DedupBy(s, key)| <= |DedupBy(s + t, key)|
    ensures DedupBy(s + t, key)[..|DedupBy(s, key)|] == DedupBy(s, key)
    decreases |t|
  {
    var d := DedupBy(s, key);
    if |t| == 0 {
      assert s + t == s;
      assert d[..|d|] == d;
    } else {
      var t' := t[..|t| - 1];
      var u := s + t;
      assert u[..|u| - 1] == s + t';
      DedupPrefix(s, t', key);
      DedupStep(u, key);
      var e' := DedupBy(s + t', key);
      var e := DedupBy(u, key);
      assert e[..|d|] == e'[..|d|];
    }
  }

  /** A key occurs after deduplication exactly when it occurred before. */
  lemma {:induction false} DedupHasKey<T, K>(s: seq<T>, key: T -> K, k: K)
    ensures HasKey(DedupBy(s, key), key, k) <==> HasKey(s, key, k)
  {
    var r := DedupBy(s, key);
    if HasKey(s, key, k) {
      var i :| 0 <= i < |s| && key(s[i]) == k;
    }
    if HasKey(r, key, k) {
      var i :| 0 <= i < |r| && key(r[i]) == k;
      SubsequenceMembers(r, s);
      assert r[i] in s;
      var j :| 0 <= j < |s| && s[j] == r[i];
    }
  }

  // ---------------------------------------------------------------- map / flat map

  /** `s.map(f)`. */
  function Map<T, U>(s: seq<T>, f: T -> U): (r: seq<U>)
    ensures |r| == |s|
    ensures forall i :: 0 <= i < |s| ==> r[i] == f(s[i])
  {
    seq(|s|, i requires 0 <= i < |s| => f(s[i]))
  }

  /** The elements `f` yields for each element of `s`, in order: nested `forEach` pushes. */
  function FlatMap<T, U>(s: seq<T>, f: T -> seq<U>): seq<U>
    decreases |s|
  {
    if |s| == 0 then [] else FlatMap(s[..|s| - 1], f) + f(s[|s| - 1])
  }

  lemma {:induction false} FlatMapConcat<T, U>(a: seq<T>, b: seq<T>, f: T -> seq<U>)
    ensures FlatMap(a + b, f) == FlatMap(a, f) + FlatMap(b, f)
    decreases |b|
  {
    if |b| == 0 {
      assert a + b == a;
    } else {
      var b' := b[..|b| - 1];
      assert (a + b)[..|a + b| - 1] == a + b';
      FlatMapConcat(a, b', f);
    }
  }
}
