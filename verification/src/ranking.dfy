/**
 * Counting into an insertion-ordered map, stable descending sort, truncation
 * and the property order of plain objects: the "fold into a map, sort,
 * slice" shape shared by every statistics route.
 */
module Ranking {
  import opened Wrappers
  import opened Seqs
  import JsText

  /** One key of a counting map with its count. */
  datatype Entry<K> = Entry(key: K, count: nat)

  function Keys<K>(es: seq<Entry<K>>): (r: seq<K>)
    ensures |r| == |es|
    ensures forall i :: 0 <= i < |es| ==> r[i] == es[i].key
  {
    seq(|es|, i requires 0 <= i < |es| => es[i].key)
  }

  /** The sum of `f` over a sequence. */
  function SumOf<T>(s: seq<T>, f: T -> nat): nat
    decreases |s|
  {
    if |s| == 0 then 0 else f(s[0]) + SumOf(s[1..], f)
  }

  lemma {:induction false} SumOfConcat<T>(a: seq<T>, b: seq<T>, f: T -> nat)
    ensures SumOf(a + b, f) == SumOf(a, f) + SumOf(b, f)
    decreases |a|
  {
    if |a| == 0 {
      assert a + b == b;
    } else {
      assert (a + b)[1..] == a[1..] + b;
      SumOfConcat(a[1..], b, f);
    }
  }

  lemma {:induction false} SumOfPrefix<T>(s: seq<T>, n: nat, f: T -> nat)
    requires n <= |s|
    ensures SumOf(s[..n], f) <= SumOf(s, f)
  {
    assert s == s[..n] + s[n..];
    SumOfConcat(s[..n], s[n..], f);
  }

  function EntryCount<K>(e: Entry<K>): nat {
    e.count
  }

  /** The count as a sort key. */
  function ByCount<K>(e: Entry<K>): int {
    e.count
  }

  /** The sum of all counts. */
  function Total<K>(es: seq<Entry<K>>): nat {
    SumOf(es, EntryCount)
  }

  /** The count stored under `k`, 0 when `k` is not a key. */
  function CountOf<K(==)>(es: seq<Entry<K>>, k: K): nat
    decreases |es|
  {
    if |es| == 0 then 0 else if es[0].key == k then es[0].count else CountOf(es[1..], k)
  }

  /** `map.set(k, (map.get(k) || 0) + 1)` on an insertion-ordered map. */
  function Bump<K(==)>(es: seq<Entry<K>>, k: K): (r: seq<Entry<K>>)
    ensures k in Keys(es) ==> Keys(r) == Keys(es)
    ensures k !in Keys(es) ==> Keys(r) == Keys(es) + [k]
    ensures forall j :: 0 <= j < |r| ==> r[j].count > 0 || (j < |es| && r[j] == es[j])
    decreases |es|
  {
    if |es| == 0 then [Entry(k, 1)]
    else if es[0].key == k then [Entry(k, es[0].count + 1)] + es[1..]
    else
      var rest := Bump(es[1..], k);
      BumpCons(es, k, rest);
      [es[0]] + rest
  }

  /** Putting back a first entry with another key keeps what `Bump` promises of the rest. */
  lemma BumpCons<K>(es: seq<Entry<K>>, k: K, rest: seq<Entry<K>>)
    requires |es| > 0 && es[0].key != k
    requires k in Keys(es[1..]) ==> Keys(rest) == Keys(es[1..])
    requires k !in Keys(es[1..]) ==> Keys(rest) == Keys(es[1..]) + [k]
    requires forall j :: 0 <= j < |rest| ==> rest[j].count > 0 || (j < |es[1..]| && rest[j] == es[1..][j])
    ensures k in Keys(es) ==> Keys([es[0]] + rest) == Keys(es)
    ensures k !in Keys(es) ==> Keys([es[0]] + rest) == Keys(es) + [k]
    ensures forall j :: 0 <= j < |[es[0]] + rest| ==> ([es[0]] + rest)[j].count > 0 || (j < |es| && ([es[0]] + rest)[j] == es[j])
  {
    KeysCons(es, rest);
    var r := [es[0]] + rest;
    forall j | 0 <= j < |r| ensures r[j].count > 0 || (j < |es| && r[j] == es[j]) {
      if j > 0 {
        assert r[j] == rest[j - 1];
        assert j - 1 < |es[1..]| ==> es[1..][j - 1] == es[j];
      }
    }
  }

  lemma KeysCons<K>(es: seq<Entry<K>>, rest: seq<Entry<K>>)
    requires |es| > 0
    ensures Keys(es) == [es[0].key] + Keys(es[1..])
    ensures Keys([es[0]] + rest) == [es[0].key] + Keys(rest)
  {
    assert Keys(es) == [es[0].key] + Keys(es[1..]);
    assert Keys([es[0]] + rest) == [es[0].key] + Keys(rest);
  }

  lemma {:induction false} BumpTotal<K>(es: seq<Entry<K>>, k: K)
    ensures Total(Bump(es, k)) == Total(es) + 1
    decreases |es|
  {
    if |es| == 0 {
      assert [Entry(k, 1)][1..] == [];
    } else if es[0].key == k {
      assert Bump(es, k)[1..] == es[1..];
    } else {
      BumpTotal(es[1..], k);
      assert Bump(es, k)[1..] == Bump(es[1..], k);
    }
  }

  lemma {:induction false} BumpCount<K>(es: seq<Entry<K>>, k: K, j: K)
    requires Seqs.DistinctKeys(es, EntryKey)
    ensures CountOf(Bump(es, k), j) == CountOf(es, j) + (if j == k then 1 else 0)
    decreases |es|
  {
    if |es| > 0 && es[0].key != k {
      assert Seqs.DistinctKeys(es[1..], EntryKey) by {
        forall a, b | 0 <= a < b < |es[1..]| ensures es[1..][a].key != es[1..][b].key {
          assert es[1..][a] == es[a + 1] && es[1..][b] == es[b + 1];
        }
      }
      BumpCount(es[1..], k, j);
    } else if |es| > 0 && j == k {
      assert CountOf(Bump(es, k), j) == es[0].count + 1;
    } else if |es| > 0 {
      assert Bump(es, k)[1..] == es[1..];
    }
  }

  function EntryKey<K>(e: Entry<K>): K {
    e.key
  }

  function Identity<K>(k: K): K {
    k
  }

  /**
   * Counting a list of keys into an insertion-ordered map, one increment per
   * element: `keys.forEach(k => map.set(k, (map.get(k) || 0) + 1))`.
   */
  function Tally<K(==)>(ks: seq<K>): (r: seq<Entry<K>>)
    ensures forall j :: 0 <= j < |r| ==> r[j].count > 0
    decreases |ks|
  {
    if |ks| == 0 then [] else Bump(Tally(ks[..|ks| - 1]), ks[|ks| - 1])
  }

  /** The keys of a tally are the distinct keys of the list, in order of first appearance. */
  lemma {:induction false} TallyKeys<K>(ks: seq<K>)
    ensures Keys(Tally(ks)) == DedupBy(ks, Identity)
    decreases |ks|
  {
    if |ks| > 0 {
      TallyKeys(ks[..|ks| - 1]);
      TallyKeysStep(ks, Keys(Tally(ks[..|ks| - 1])));
    }
  }

  /** The last key joins the distinct keys of the others exactly when it is new. */
  lemma {:induction false} TallyKeysStep<K>(ks: seq<K>, keys: seq<K>)
    requires |ks| > 0 && keys == DedupBy(ks[..|ks| - 1], Identity)
    ensures HasKey(keys, Identity, ks[|ks| - 1]) <==> ks[|ks| - 1] in keys
    ensures DedupBy(ks, Identity) == if ks[|ks| - 1] in keys then keys else keys + [ks[|ks| - 1]]
  {
    var k := ks[|ks| - 1];
    HasKeyIdentity(keys, k);
    assert DedupBy(ks, Identity) == if HasKey(keys, Identity, Identity(k)) then keys else keys + [k];
  }

  /** Under the identity key, having the key means being an element. */
  lemma HasKeyIdentity<K>(keys: seq<K>, k: K)
    ensures HasKey(keys, Identity, k) <==> k in keys
  {
    if k in keys {
      var i :| 0 <= i < |keys| && keys[i] == k;
      assert Identity(keys[i]) == Identity(k);
    }
    if HasKey(keys, Identity, k) {
      var i :| 0 <= i < |keys| && Identity(keys[i]) == Identity(k);
      assert keys[i] == k;
    }
  }

  /** Counting conserves the number of keys: the counts add up to the length of the list. */
  lemma {:induction false} TallyTotal<K>(ks: seq<K>)
    ensures Total(Tally(ks)) == |ks|
    decreases |ks|
  {
    if |ks| > 0 {
      var pre := ks[..|ks| - 1];
      TallyTotal(pre);
      BumpTotal(Tally(pre), ks[|ks| - 1]);
    }
  }

  /** The keys of a tally are distinct. */
  lemma {:induction false} TallyDistinct<K>(ks: seq<K>)
    ensures Seqs.DistinctKeys(Tally(ks), EntryKey)
  {
    var r := Tally(ks);
    var d := DedupBy(ks, Identity);
    TallyKeys(ks);
    forall i, j | 0 <= i < j < |r| ensures r[i].key != r[j].key {
      assert Keys(r)[i] == r[i].key && Keys(r)[j] == r[j].key;
      assert Identity(d[i]) != Identity(d[j]);
    }
  }

  /** Every key is counted exactly as often as it occurs. */
  lemma {:induction false} TallyCounts<K>(ks: seq<K>, k: K)
    ensures CountOf(Tally(ks), k) == multiset(ks)[k]
    decreases |ks|
  {
    if |ks| > 0 {
      var pre := ks[..|ks| - 1];
      assert ks == pre + [ks[|ks| - 1]];
      TallyCounts(pre, k);
      TallyDistinct(pre);
      BumpCount(Tally(pre), ks[|ks| - 1], k);
    }
  }

  // ---------------------------------------------------------------- stable sort

  predicate SortedDesc<T>(s: seq<T>, rank: T -> int) {
    forall i, j :: 0 <= i < j < |s| ==> rank(s[i]) >= rank(s[j])
  }

  /** The elements of rank `v`, in order. */
  function WithRank<T>(s: seq<T>, rank: T -> int, v: int): seq<T>
    decreases |s|
  {
    if |s| == 0 then [] else (if rank(s[0]) == v then [s[0]] else []) + WithRank(s[1..], rank, v)
  }

  /** Place `x` before the first element whose rank is not above its own. */
  function Insert<T(==)>(x: T, s: seq<T>, rank: T -> int): (r: seq<T>)
    requires SortedDesc(s, rank)
    ensures SortedDesc(r, rank)
    ensures multiset(r) == multiset(s) + multiset{x}
    decreases |s|
  {
    if |s| == 0 || rank(x) >= rank(s[0]) then
      [x] + s
    else
      var t := Insert(x, s[1..], rank);
      InsertBelow(x, s, t, rank);
      [s[0]] + t
  }

  lemma InsertBelow<T>(x: T, s: seq<T>, t: seq<T>, rank: T -> int)
    requires SortedDesc(s, rank) && |s| > 0 && rank(x) < rank(s[0])
    requires multiset(t) == multiset(s[1..]) + multiset{x}
    requires SortedDesc(t, rank)
    ensures SortedDesc([s[0]] + t, rank)
    ensures multiset([s[0]] + t) == multiset(s) + multiset{x}
  {
    assert s == [s[0]] + s[1..];
    forall i | 0 <= i < |t| ensures rank(t[i]) <= rank(s[0]) {
      assert t[i] in multiset(t);
      if t[i] != x {
        assert t[i] in multiset(s[1..]);
        var j :| 0 <= j < |s[1..]| && s[1..][j] == t[i];
        assert s[j + 1] == t[i];
      }
    }
    var r := [s[0]] + t;
    forall i, j | 0 <= i < j < |r| ensures rank(r[i]) >= rank(r[j]) {
      if i > 0 {
        assert r[i] == t[i - 1] && r[j] == t[j - 1];
      } else {
        assert r[j] == t[j - 1];
      }
    }
  }

  /** Insertion keeps the elements of each rank in order, `x` ahead of its equals. */
  lemma {:induction false} InsertWithRank<T>(x: T, s: seq<T>, rank: T -> int, v: int)
    requires SortedDesc(s, rank)
    ensures WithRank(Insert(x, s, rank), rank, v)
         == if rank(x) == v then [x] + WithRank(s, rank, v) else WithRank(s, rank, v)
    decreases |s|
  {
    if |s| == 0 || rank(x) >= rank(s[0]) {
      WithRankCons(x, s, rank, v);
    } else {
      SortedTail(s, rank);
      var t := Insert(x, s[1..], rank);
      assert Insert(x, s, rank) == [s[0]] + t;
      InsertWithRank(x, s[1..], rank, v);
      WithRankCons(s[0], t, rank, v);
      var rest := WithRank(s[1..], rank, v);
      if rank(s[0]) == v {
        assert WithRank(s, rank, v) == [s[0]] + rest;
      } else {
        assert WithRank(s, rank, v) == [] + rest == rest;
      }
    }
  }

  lemma SortedTail<T>(s: seq<T>, rank: T -> int)
    requires |s| > 0 && SortedDesc(s, rank)
    ensures SortedDesc(s[1..], rank)
  {
    forall i, j | 0 <= i < j < |s[1..]| ensures rank(s[1..][i]) >= rank(s[1..][j]) {
      assert s[1..][i] == s[i + 1] && s[1..][j] == s[j + 1];
    }
  }

  lemma {:induction false} WithRankCons<T>(y: T, t: seq<T>, rank: T -> int, v: int)
    ensures WithRank([y] + t, rank, v) == (if rank(y) == v then [y] else []) + WithRank(t, rank, v)
  {
    assert ([y] + t)[0] == y && ([y] + t)[1..] == t;
  }

  /** `s.sort((a, b) => rank(b) - rank(a))`: a stable sort, largest rank first. */
  function SortDesc<T(==)>(s: seq<T>, rank: T -> int): (r: seq<T>)
    ensures SortedDesc(r, rank)
    ensures multiset(r) == multiset(s)
    decreases |s|
  {
    if |s| == 0 then []
    else
      assert s == [s[0]] + s[1..];
      Insert(s[0], SortDesc(s[1..], rank), rank)
  }

  /** The sort is stable: the elements of each rank keep their input order. */
  lemma {:induction false} SortStable<T>(s: seq<T>, rank: T -> int, v: int)
    ensures WithRank(SortDesc(s, rank), rank, v) == WithRank(s, rank, v)
    decreases |s|
  {
    if |s| > 0 {
      SortStable(s[1..], rank, v);
      InsertWithRank(s[0], SortDesc(s[1..], rank), rank, v);
    }
  }

  /** Sums do not depend on the order of the elements. */
  lemma {:induction false} SumOfPermutation<T>(a: seq<T>, b: seq<T>, f: T -> nat)
    requires multiset(a) == multiset(b)
    ensures SumOf(a, f) == SumOf(b, f)
    decreases |a|
  {
    if |a| == 0 {
      assert |b| == |multiset(b)| == 0;
    } else {
      assert a[0] in multiset(b);
      var i :| 0 <= i < |b| && b[i] == a[0];
      var rest := b[..i] + b[i + 1..];
      RemoveAt(b, i);
      assert multiset(a[1..]) == multiset(a) - multiset{a[0]} by {
        assert a == [a[0]] + a[1..];
      }
      SumOfPermutation(a[1..], rest, f);
    }
  }

  /** Taking out the element at `i` removes one occurrence of it and its share of any sum. */
  lemma {:induction false} RemoveAt<T>(b: seq<T>, i: nat)
    requires i < |b|
    ensures multiset(b[..i] + b[i + 1..]) == multiset(b) - multiset{b[i]}
    ensures forall f: T -> nat :: SumOf(b, f) == SumOf(b[..i] + b[i + 1..], f) + f(b[i])
  {
    var front, back := b[..i], b[i + 1..];
    assert b == front + [b[i]] + back;
    assert multiset(b) == multiset(front) + multiset{b[i]} + multiset(back);
    forall f: T -> nat ensures SumOf(b, f) == SumOf(front + back, f) + f(b[i]) {
      SumOfConcat(front, back, f);
      SumOfConcat(front + [b[i]], back, f);
      SumOfConcat(front, [b[i]], f);
      assert SumOf([b[i]], f) == f(b[i]) by {
        assert [b[i]][1..] == [];
      }
    }
  }

  // ---------------------------------------------------------------- plain-object key order

  predicate IsIndexEntry(e: Entry<string>) {
    JsText.IsArrayIndex(e.key)
  }

  predicate IsNamedEntry(e: Entry<string>) {
    !JsText.IsArrayIndex(e.key)
  }

  /** Larger for smaller array indices, so that a descending sort lists them ascending. */
  function IndexRank(e: Entry<string>): int {
    if JsText.IsArrayIndex(e.key) then -(JsText.DecimalValue(e.key) as int) else 0
  }

  lemma {:induction false} FilterNone<T>(s: seq<T>, keep: T -> bool)
    requires forall i :: 0 <= i < |s| ==> !keep(s[i])
    ensures Filter(s, keep) == []
    decreases |s|
  {
    if |s| > 0 {
      FilterNone(s[..|s| - 1], keep);
    }
  }

  /** Every entry is either an array index or a named key. */
  lemma {:induction false} EntryPartition(es: seq<Entry<string>>)
    ensures multiset(Filter(es, IsIndexEntry)) + multiset(Filter(es, IsNamedEntry)) == multiset(es)
    decreases |es|
  {
    if |es| > 0 {
      EntryPartition(es[..|es| - 1]);
      MultisetLast(es);
      FilterLast(es, IsIndexEntry);
      FilterLast(es, IsNamedEntry);
    }
  }

  lemma MultisetLast<T>(s: seq<T>)
    requires |s| > 0
    ensures multiset(s) == multiset(s[..|s| - 1]) + multiset{s[|s| - 1]}
  {
    assert s == s[..|s| - 1] + [s[|s| - 1]];
  }

  lemma {:induction false} FilterLast<T>(s: seq<T>, keep: T -> bool)
    requires |s| > 0
    ensures multiset(Filter(s, keep))
         == multiset(Filter(s[..|s| - 1], keep)) + (if keep(s[|s| - 1]) then multiset{s[|s| - 1]} else multiset{})
  {
  }

  /**
   * `Object.entries(record)` for a record whose keys were created in the
   * order of `es`: keys that are array indices come first in ascending
   * numeric order, then every other key in creation order.
   */
  function ObjectOrder(es: seq<Entry<string>>): (r: seq<Entry<string>>)
    ensures multiset(r) == multiset(es)
    ensures Filter(r, IsNamedEntry) == Filter(es, IsNamedEntry)
    ensures forall i, j :: 0 <= i < j < |r| && IsIndexEntry(r[j]) ==> IsIndexEntry(r[i])
    ensures forall i, j :: 0 <= i < j < |r| && IsIndexEntry(r[j]) ==> IndexRank(r[i]) >= IndexRank(r[j])
  {
    var indices := SortDesc(Filter(es, IsIndexEntry), IndexRank);
    var named := Filter(es, IsNamedEntry);
    ObjectOrderFacts(es, indices, named);
    indices + named
  }

  lemma {:induction false} ObjectOrderFacts(es: seq<Entry<string>>, indices: seq<Entry<string>>, named: seq<Entry<string>>)
    requires indices == SortDesc(Filter(es, IsIndexEntry), IndexRank)
    requires named == Filter(es, IsNamedEntry)
    ensures multiset(indices + named) == multiset(es)
    ensures Filter(indices + named, IsNamedEntry) == named
    ensures forall i :: 0 <= i < |indices| ==> IsIndexEntry(indices[i])
    ensures forall i :: 0 <= i < |named| ==> IsNamedEntry(named[i])
    ensures SortedDesc(indices, IndexRank)
  {
    EntryPartition(es);
    forall i | 0 <= i < |indices| ensures IsIndexEntry(indices[i]) {
      assert indices[i] in multiset(Filter(es, IsIndexEntry));
    }
    FilterNone(indices, IsNamedEntry);
    FilterConcat(indices, named, IsNamedEntry);
    FilterKeepsAll(named, IsNamedEntry);
  }

  /** Reordering the keys of a counting record keeps the total. */
  lemma ObjectOrderTotal(es: seq<Entry<string>>)
    ensures Total(ObjectOrder(es)) == Total(es)
  {
    SumOfPermutation(ObjectOrder(es), es, EntryCount);
  }

  /** `s.slice(0, n)`. */
  function Take<T>(s: seq<T>, n: nat): (r: seq<T>)
    ensures |r| == if |s| < n then |s| else n
    ensures r == s[..|r|]
  {
    if |s| < n then s else s[..n]
  }

  /**
   * `s.sort((a, b) => rank(b) - rank(a)).slice(0, n)`: the `n` elements of
   * highest rank, largest first.
   */
  function TopN<T(==)>(s: seq<T>, rank: T -> int, n: nat): (r: seq<T>)
    ensures |r| == if |s| < n then |s| else n
    ensures SortedDesc(r, rank)
    ensures multiset(r) <= multiset(s)
  {
    var t := SortDesc(s, rank);
    var r := Take(t, n);
    assert t == r + t[|r|..];
    assert multiset(t) == multiset(r) + multiset(t[|r|..]);
    r
  }

  /** An element left out of the top `n` ranks no higher than any element kept. */
  lemma TopNExcluded<T>(s: seq<T>, rank: T -> int, n: nat, x: T)
    requires x in s && x !in TopN(s, rank, n)
    ensures |TopN(s, rank, n)| == n
    ensures forall i :: 0 <= i < n ==> rank(TopN(s, rank, n)[i]) >= rank(x)
  {
    var t := SortDesc(s, rank);
    var r := TopN(s, rank, n);
    assert x in multiset(t);
    var j :| 0 <= j < |t| && t[j] == x;
  }

  lemma {:induction false} WithRankConcat<T>(a: seq<T>, b: seq<T>, rank: T -> int, v: int)
    ensures WithRank(a + b, rank, v) == WithRank(a, rank, v) + WithRank(b, rank, v)
    decreases |a|
  {
    if |a| == 0 {
      assert a + b == b;
    } else {
      var ab := a + b;
      var head := if rank(a[0]) == v then [a[0]] else [];
      assert ab[0] == a[0] && ab[1..] == a[1..] + b;
      assert WithRank(ab, rank, v) == head + WithRank(ab[1..], rank, v);
      WithRankConcat(a[1..], b, rank, v);
      assert WithRank(a, rank, v) == head + WithRank(a[1..], rank, v);
      assert head + (WithRank(a[1..], rank, v) + WithRank(b, rank, v))
          == (head + WithRank(a[1..], rank, v)) + WithRank(b, rank, v);
    }
  }

  /**
   * Ties keep their order: the elements of any one rank in the top `n` are
   * the first few elements of that rank in the input, in input order.
   */
  lemma {:induction false} TopNStable<T>(s: seq<T>, rank: T -> int, n: nat, v: int)
    ensures var w := WithRank(s, rank, v);
            var u := WithRank(TopN(s, rank, n), rank, v);
            |u| <= |w| && u == w[..|u|]
  {
    var t := SortDesc(s, rank);
    var r := TopN(s, rank, n);
    assert r == Take(t, n) == t[..|r|];
    PrefixWithRank(t, |r|, rank, v);
    SortStable(s, rank, v);
  }

  /** The elements of one rank in a prefix are a prefix of the elements of that rank. */
  lemma {:induction false} PrefixWithRank<T>(t: seq<T>, k: nat, rank: T -> int, v: int)
    requires k <= |t|
    ensures var u := WithRank(t[..k], rank, v);
            |u| <= |WithRank(t, rank, v)| && u == WithRank(t, rank, v)[..|u|]
  {
    assert t == t[..k] + t[k..];
    WithRankConcat(t[..k], t[k..], rank, v);
    var u, x := WithRank(t[..k], rank, v), WithRank(t[k..], rank, v);
    assert (u + x)[..|u|] == u;
  }

  /** The counts of the top `n` add up to no more than all counts. */
  lemma {:induction false} TopNSum<T>(s: seq<T>, rank: T -> int, n: nat, f: T -> nat)
    ensures SumOf(TopN(s, rank, n), f) <= SumOf(s, f)
  {
    var t := SortDesc(s, rank);
    SumOfPrefix(t, |TopN(s, rank, n)|, f);
    SumOfPermutation(t, s, f);
  }

  /** No single count exceeds the total. */
  lemma {:induction false} EntryBelowTotal<K>(es: seq<Entry<K>>, i: nat)
    requires i < |es|
    ensures es[i].count <= Total(es)
    decreases i
  {
    if i > 0 {
      EntryBelowTotal(es[1..], i - 1);
    }
  }

  /** The entries with their keys rewritten and their counts kept. */
  function RenameKeys<K>(es: seq<Entry<K>>, rename: K -> K): (r: seq<Entry<K>>)
    ensures |r| == |es|
    ensures forall i :: 0 <= i < |es| ==> r[i] == Entry(rename(es[i].key), es[i].count)
  {
    seq(|es|, i requires 0 <= i < |es| => Entry(rename(es[i].key), es[i].count))
  }

  lemma {:induction false} RenameKeysTotal<K>(es: seq<Entry<K>>, rename: K -> K)
    ensures Total(RenameKeys(es, rename)) == Total(es)
    decreases |es|
  {
    if |es| > 0 {
      RenameKeysTotal(es[1..], rename);
      assert RenameKeys(es, rename)[1..] == RenameKeys(es[1..], rename);
    }
  }

  /** In a map with distinct keys, looking up an entry's key finds that entry's count. */
  lemma {:induction false} CountOfEntry<K>(es: seq<Entry<K>>, i: nat)
    requires i < |es| && DistinctKeys(es, EntryKey)
    ensures CountOf(es, es[i].key) == es[i].count
    decreases i
  {
    if i > 0 {
      assert EntryKey(es[0]) != EntryKey(es[i]);
      assert DistinctKeys(es[1..], EntryKey) by {
        forall a, b | 0 <= a < b < |es[1..]| ensures EntryKey(es[1..][a]) != EntryKey(es[1..][b]) {
          assert es[1..][a] == es[a + 1] && es[1..][b] == es[b + 1];
        }
      }
      CountOfEntry(es[1..], i - 1);
    }
  }
}
