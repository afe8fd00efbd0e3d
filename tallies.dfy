/**
  Count tables, as pandas builds them with `value_counts()` and
  `groupby(...).size()`, and the mean-relative incidence tiers built on them.

  A count table is an association list of (key, count) pairs with distinct
  keys, the items of the Python dict the analysers return.  Missing values
  (`None`) are never counted, as both pandas operations drop NaN by default.
*/
module Tallies {
  import opened Wrappers

  type Counts<K> = seq<(K, nat)>

  /** Number of non-missing values. */
  function Present<K(==,!new)>(xs: seq<Option<K>>): nat
  {
    if xs == [] then 0 else Present(xs[..|xs| - 1]) + (if xs[|xs| - 1].Some? then 1 else 0)
  }

  /** The distinct non-missing values. */
  function Observed<K(==,!new)>(xs: seq<Option<K>>): set<K>
  {
    set i | 0 <= i < |xs| && xs[i].Some? :: xs[i].value
  }

  /** The count a table gives a key (0 when absent). */
  function Lookup<K(==,!new)>(t: Counts<K>, k: K): nat
  {
    if t == [] then 0 else if t[0].0 == k then t[0].1 else Lookup(t[1..], k)
  }

  function Keys<K(==,!new)>(t: Counts<K>): set<K>
  {
    if t == [] then {} else {t[0].0} + Keys(t[1..])
  }

  /** Sum of all counts. */
  function Total<K(==,!new)>(t: Counts<K>): nat
  {
    if t == [] then 0 else t[0].1 + Total(t[1..])
  }

  predicate DistinctKeys<K(==,!new)>(t: Counts<K>)
  {
    forall i, j :: 0 <= i < j < |t| ==> t[i].0 != t[j].0
  }

  predicate Positive<K(==,!new)>(t: Counts<K>)
  {
    forall j :: 0 <= j < |t| ==> t[j].1 > 0
  }

  /** Keys in strictly ascending order. */
  predicate Ascending(t: Counts<int>)
  {
    forall i, j :: 0 <= i < j < |t| ==> t[i].0 < t[j].0
  }

  /** The table with one more occurrence of k; a new key goes last. */
  function Bump<K(==,!new)>(t: Counts<K>, k: K): (r: Counts<K>)
    ensures forall x :: Lookup(r, x) == Lookup(t, x) + (if x == k then 1 else 0)
    ensures Keys(r) == Keys(t) + {k}
    ensures Total(r) == Total(t) + 1
    ensures DistinctKeys(t) ==> DistinctKeys(r)
    ensures Positive(t) ==> Positive(r)
  {
    if t == [] then [(k, 1)]
    else if t[0].0 == k then
      assert ([(k, t[0].1 + 1)] + t[1..])[1..] == t[1..];
      [(k, t[0].1 + 1)] + t[1..]
    else
      var rest := Bump(t[1..], k);
      assert ([t[0]] + rest)[1..] == rest;
      assert DistinctKeys(t) ==> DistinctKeys([t[0]] + rest) by {
        if DistinctKeys(t) {
          HeadNotInTail(t);
          forall j | 0 <= j < |rest| ensures rest[j].0 != t[0].0 {
            KeyAt(rest, j);
          }
        }
      }
      [t[0]] + rest
  }

  /** `value_counts()`: every observed value with the number of rows holding
      it, in order of first appearance. */
  function Tally<K(==,!new)>(xs: seq<Option<K>>): (t: Counts<K>)
    ensures DistinctKeys(t) && Positive(t)
    ensures forall k :: Lookup(t, k) == multiset(xs)[Some(k)]
    ensures Keys(t) == Observed(xs)
    ensures Total(t) == Present(xs)
  {
    if xs == [] then []
    else
      var n := |xs| - 1;
      assert xs == xs[..n] + [xs[n]];
      assert Observed(xs) == Observed(xs[..n]) + (if xs[n].Some? then {xs[n].value} else {});
      var front := Tally(xs[..n]);
      match xs[n]
      case None => front
      case Some(k) => Bump(front, k)
  }

  /** The table with one more occurrence of k, kept in ascending key order. */
  function Insert(t: Counts<int>, k: int): (r: Counts<int>)
    requires Ascending(t)
    ensures Ascending(r)
    ensures Keys(r) == Keys(t) + {k}
  {
    if t == [] then [(k, 1)]
    else if k < t[0].0 then
      AscendingKeysFrom(t);
      assert ([(k, 1)] + t)[1..] == t;
      [(k, 1)] + t
    else if k == t[0].0 then
      assert ([(k, t[0].1 + 1)] + t[1..])[1..] == t[1..];
      [(k, t[0].1 + 1)] + t[1..]
    else
      var rest := Insert(t[1..], k);
      assert ([t[0]] + rest)[1..] == rest;
      AscendingTailAbove(t);
      ConsAscending(t[0], rest);
      [t[0]] + rest
  }

  /** Insert adds exactly one occurrence of k and keeps counts positive. */
  lemma {:induction false} InsertCounts(t: Counts<int>, k: int)
    requires Ascending(t)
    ensures forall x :: Lookup(Insert(t, k), x) == Lookup(t, x) + (if x == k then 1 else 0)
    ensures Total(Insert(t, k)) == Total(t) + 1
    ensures Positive(t) ==> Positive(Insert(t, k))
  {
    if t != [] {
      if k < t[0].0 {
        AscendingKeysFrom(t);
        LookupAbsent(t, k);
        assert ([(k, 1)] + t)[1..] == t;
      } else if k == t[0].0 {
        assert ([(k, t[0].1 + 1)] + t[1..])[1..] == t[1..];
      } else {
        InsertCounts(t[1..], k);
        assert ([t[0]] + Insert(t[1..], k))[1..] == Insert(t[1..], k);
      }
    }
  }

  /** `groupby(key).size()` on integer keys: every observed key with the
      number of rows holding it, in ascending key order. */
  function GroupSizes(xs: seq<Option<int>>): (t: Counts<int>)
    ensures Ascending(t) && Positive(t)
    ensures forall k :: Lookup(t, k) == multiset(xs)[Some(k)]
    ensures Keys(t) == Observed(xs)
    ensures Total(t) == Present(xs)
  {
    if xs == [] then []
    else
      var n := |xs| - 1;
      assert xs == xs[..n] + [xs[n]];
      assert Observed(xs) == Observed(xs[..n]) + (if xs[n].Some? then {xs[n].value} else {});
      var front := GroupSizes(xs[..n]);
      match xs[n]
      case None => front
      case Some(k) => InsertCounts(front, k); Insert(front, k)
  }

  lemma {:induction false} KeyAt<K(!new)>(t: Counts<K>, j: int)
    requires 0 <= j < |t|
    ensures t[j].0 in Keys(t)
  {
    if j > 0 {
      KeyAt(t[1..], j - 1);
    }
  }

  /** With no missing value every row is present. */
  lemma {:induction false} AllPresent<K(!new)>(xs: seq<Option<K>>)
    requires forall i :: 0 <= i < |xs| ==> xs[i].Some?
    ensures Present(xs) == |xs|
  {
    if xs != [] {
      AllPresent(xs[..|xs| - 1]);
    }
  }

  /** A table with distinct keys has one entry per key. */
  lemma {:induction false} KeysCount<K(!new)>(t: Counts<K>)
    requires DistinctKeys(t)
    ensures |Keys(t)| == |t|
  {
    if t != [] {
      HeadNotInTail(t);
      KeysCount(t[1..]);
    }
  }

  lemma HeadNotInTail<K(!new)>(t: Counts<K>)
    requires DistinctKeys(t) && t != []
    ensures t[0].0 !in Keys(t[1..])
  {
    forall k | k in Keys(t[1..]) ensures k != t[0].0 {
      var j := KeyIndex(t[1..], k);
    }
  }

  lemma AscendingKeysFrom(t: Counts<int>)
    requires Ascending(t) && t != []
    ensures forall k :: k in Keys(t) ==> t[0].0 <= k
  {
    forall k | k in Keys(t) ensures t[0].0 <= k {
      var j := KeyIndex(t, k);
    }
  }

  lemma AscendingTailAbove(t: Counts<int>)
    requires Ascending(t) && t != []
    ensures forall k :: k in Keys(t[1..]) ==> t[0].0 < k
  {
    forall k | k in Keys(t[1..]) ensures t[0].0 < k {
      var j := KeyIndex(t[1..], k);
      assert t[1..][j] == t[j + 1];
    }
  }

  lemma ConsAscending(e: (int, nat), t: Counts<int>)
    requires Ascending(t) && forall k :: k in Keys(t) ==> e.0 < k
    ensures Ascending([e] + t)
  {
    forall j | 0 <= j < |t| ensures e.0 < t[j].0 {
      KeyAt(t, j);
    }
  }

  lemma AscendingIsDistinct(t: Counts<int>)
    requires Ascending(t)
    ensures DistinctKeys(t)
  {
  }

  /** In a table with distinct keys, each entry's count is what Lookup gives. */
  lemma {:induction false} LookupEntry<K(!new)>(t: Counts<K>, j: int)
    requires DistinctKeys(t) && 0 <= j < |t|
    ensures Lookup(t, t[j].0) == t[j].1
  {
    if j > 0 {
      LookupEntry(t[1..], j - 1);
    }
  }

  lemma {:induction false} KeyIndex<K(!new)>(t: Counts<K>, k: K) returns (j: int)
    requires k in Keys(t)
    ensures 0 <= j < |t| && t[j].0 == k
  {
    if t[0].0 == k {
      j := 0;
    } else {
      j := KeyIndex(t[1..], k);
      j := j + 1;
    }
  }

  lemma {:induction false} LookupAbsent<K(!new)>(t: Counts<K>, k: K)
    requires k !in Keys(t)
    ensures Lookup(t, k) == 0
  {
    if t != [] {
      LookupAbsent(t[1..], k);
    }
  }

  /** A table built by Tally or GroupSizes holds a key iff the key was
      observed, and then with the number of rows holding it. */
  lemma TallyKeyIff<K(!new)>(t: Counts<K>, xs: seq<Option<K>>, k: K)
    requires DistinctKeys(t) && Positive(t)
    requires forall x :: Lookup(t, x) == multiset(xs)[Some(x)]
    ensures k in Keys(t) <==> Some(k) in xs
  {
    if k in Keys(t) {
      var j := KeyIndex(t, k);
      LookupEntry(t, j);
    } else {
      LookupAbsent(t, k);
    }
  }

  /** If every observed value lies in [lo, hi], so does every key of its table. */
  lemma KeysWithin(xs: seq<Option<int>>, lo: int, hi: int)
    requires forall i :: 0 <= i < |xs| && xs[i].Some? ==> lo <= xs[i].value <= hi
    ensures forall k :: k in Keys(GroupSizes(xs)) ==> lo <= k <= hi
  {
  }

  // ---------------------------------------------------------------------
  // Two-key counts

  /** Two columns zipped row by row into key pairs; a row missing either
      value has no pair, as `groupby([a, b])` drops it. */
  function Pairs<A, B>(a: seq<Option<A>>, b: seq<Option<B>>): (r: seq<Option<(A, B)>>)
    requires |a| == |b|
    ensures |r| == |a|
    ensures forall i :: 0 <= i < |a| ==> (r[i].Some? <==> a[i].Some? && b[i].Some?)
    ensures forall i :: 0 <= i < |a| && r[i].Some? ==> r[i].value == (a[i].value, b[i].value)
  {
    seq(|a|, i requires 0 <= i < |a| => if a[i].Some? && b[i].Some? then Some((a[i].value, b[i].value)) else None)
  }

  /** Sum of the counts of the pairs whose first key is x. */
  function SumFor<A(==), B(==)>(t: Counts<(A, B)>, x: A): nat
  {
    if t == [] then 0 else (if t[0].0.0 == x then t[0].1 else 0) + SumFor(t[1..], x)
  }

  /** Number of pairs whose first key is x. */
  function PairsWith<A(==), B>(ps: seq<Option<(A, B)>>, x: A): nat
  {
    if ps == [] then 0
    else PairsWith(ps[..|ps| - 1], x) + (if ps[|ps| - 1].Some? && ps[|ps| - 1].value.0 == x then 1 else 0)
  }

  lemma {:induction false} BumpSumFor<A(!new), B(!new)>(t: Counts<(A, B)>, k: (A, B), x: A)
    ensures SumFor(Bump(t, k), x) == SumFor(t, x) + (if k.0 == x then 1 else 0)
  {
    if t != [] && t[0].0 != k {
      BumpSumFor(t[1..], k, x);
      assert ([t[0]] + Bump(t[1..], k))[1..] == Bump(t[1..], k);
    } else if t != [] {
      assert ([(k, t[0].1 + 1)] + t[1..])[1..] == t[1..];
    }
  }

  /** The pairs of a two-key count table with first key x add up to the
      number of rows holding a pair with first key x. */
  lemma {:induction false} TallySumFor<A(!new), B(!new)>(ps: seq<Option<(A, B)>>, x: A)
    ensures SumFor(Tally(ps), x) == PairsWith(ps, x)
  {
    if ps != [] {
      var n := |ps| - 1;
      TallySumFor(ps[..n], x);
      if ps[n].Some? {
        BumpSumFor(Tally(ps[..n]), ps[n].value, x);
      }
    }
  }

  /** Rows pairing x with a second value are at most the rows holding x, and
      exactly those when the second column has no missing value. */
  lemma {:induction false} PairsWithBound<A(!new), B(!new)>(a: seq<Option<A>>, b: seq<Option<B>>, x: A)
    requires |a| == |b|
    ensures PairsWith(Pairs(a, b), x) <= multiset(a)[Some(x)]
    ensures (forall i :: 0 <= i < |b| ==> b[i].Some?) ==> PairsWith(Pairs(a, b), x) == multiset(a)[Some(x)]
  {
    if a != [] {
      var n := |a| - 1;
      assert Pairs(a, b)[..n] == Pairs(a[..n], b[..n]);
      assert a == a[..n] + [a[n]];
      PairsWithBound(a[..n], b[..n], x);
    }
  }

  /** `groupby([District, X]).size()` against `District.value_counts()`: for
      each district, its pairs add up to at most its count, and to exactly
      its count when X has no missing value. */
  lemma TwoKeySubtotals<A(!new), B(!new)>(a: seq<Option<A>>, b: seq<Option<B>>, x: A)
    requires |a| == |b|
    ensures SumFor(Tally(Pairs(a, b)), x) <= Lookup(Tally(a), x)
    ensures (forall i :: 0 <= i < |b| ==> b[i].Some?) ==> SumFor(Tally(Pairs(a, b)), x) == Lookup(Tally(a), x)
  {
    TallySumFor(Pairs(a, b), x);
    PairsWithBound(a, b, x);
  }

  // ---------------------------------------------------------------------
  // Mean-relative tiers

  /** The entries whose count c has c * n > total, in order. */
  function Above<K(==,!new)>(t: Counts<K>, n: int, total: int): (r: Counts<K>)
    ensures forall e :: e in r <==> e in t && e.1 * n > total
    ensures |r| <= |t|
  {
    if t == [] then []
    else if t[0].1 * n > total then [t[0]] + Above(t[1..], n, total)
    else Above(t[1..], n, total)
  }

  /** The entries whose count c has c * n <= total, in order. */
  function AtMost<K(==,!new)>(t: Counts<K>, n: int, total: int): (r: Counts<K>)
    ensures forall e :: e in r <==> e in t && e.1 * n <= total
    ensures |r| <= |t|
  {
    if t == [] then []
    else if t[0].1 * n <= total then [t[0]] + AtMost(t[1..], n, total)
    else AtMost(t[1..], n, total)
  }

  /** `counts[counts > counts.mean()]`: a count c exceeds the mean
      Total / |t| exactly when c * |t| > Total. */
  function AboveMean<K(==,!new)>(t: Counts<K>): Counts<K>
  {
    Above(t, |t|, Total(t))
  }

  /** `counts[counts <= counts.mean()]` */
  function AtMostMean<K(==,!new)>(t: Counts<K>): Counts<K>
  {
    AtMost(t, |t|, Total(t))
  }

  /** The division-free comparison is the comparison with the real mean. */
  lemma MeanComparison(c: nat, total: nat, n: nat)
    requires n > 0
    ensures (c as real > total as real / n as real) <==> c * n > total
  {
    var m := total as real / n as real;
    assert m * n as real == total as real;
    assert (c * n) as real == c as real * n as real;
    if c as real > m {
      assert c as real * n as real > m * n as real;
    } else {
      assert c as real * n as real <= m * n as real;
    }
  }

  /** An entry is kept by `counts[counts > counts.mean()]` exactly when its
      count exceeds the real mean of the counts. */
  lemma AboveMeanMeaning<K(!new)>(t: Counts<K>)
    ensures forall e :: e in AboveMean(t) <==> e in t && e.1 as real > Total(t) as real / |t| as real
  {
    forall e | e in t ensures e in AboveMean(t) <==> e.1 as real > Total(t) as real / |t| as real {
      MeanComparison(e.1, Total(t), |t|);
    }
  }

  /** The two tiers split the table: every entry is in exactly one of them,
      and their sizes and counts add up to the table's. */
  lemma {:induction false} TiersPartition<K(!new)>(t: Counts<K>, n: int, total: int)
    ensures |Above(t, n, total)| + |AtMost(t, n, total)| == |t|
    ensures Total(Above(t, n, total)) + Total(AtMost(t, n, total)) == Total(t)
  {
    if t != [] {
      TiersPartition(t[1..], n, total);
    }
  }

  /** A table whose counts are all at least b totals at least |t| * b. */
  lemma {:induction false} TotalAtLeast<K(!new)>(t: Counts<K>, b: nat)
    requires forall j :: 0 <= j < |t| ==> t[j].1 >= b
    ensures Total(t) >= |t| * b
  {
    if t != [] {
      TotalAtLeast(t[1..], b);
      assert |t| * b == b + (|t| - 1) * b;
    }
  }

  /** Index of a smallest count. */
  function ArgMin<K(==,!new)>(t: Counts<K>): (m: nat)
    requires |t| > 0
    ensures m < |t|
    ensures forall j :: 0 <= j < |t| ==> t[m].1 <= t[j].1
  {
    if |t| == 1 then 0
    else
      var m := ArgMin(t[1..]) + 1;
      if t[0].1 <= t[m].1 then 0 else m
  }

  /** The smallest count is never above the mean, so the lower tier of a
      non-empty table is never empty. */
  lemma AtMostMeanNonEmpty<K(!new)>(t: Counts<K>)
    requires |t| > 0
    ensures |AtMostMean(t)| > 0
  {
    var m := ArgMin(t);
    TotalAtLeast(t, t[m].1);
    assert t[m].1 * |t| <= Total(t);
    assert t[m] in t;
    assert t[m] in AtMostMean(t);
  }

  /** Nothing is above a bound every count stays under. */
  lemma {:induction false} AboveNone<K(!new)>(t: Counts<K>, n: int, total: int)
    requires forall j :: 0 <= j < |t| ==> t[j].1 * n <= total
    ensures Above(t, n, total) == []
  {
    if t != [] {
      AboveNone(t[1..], n, total);
    }
  }

  /** With all counts equal there is nothing above the mean. */
  lemma {:induction false} EqualCountsTotal<K(!new)>(t: Counts<K>, c: nat)
    requires forall j :: 0 <= j < |t| ==> t[j].1 == c
    ensures Total(t) == |t| * c
  {
    if t != [] {
      EqualCountsTotal(t[1..], c);
      assert |t| * c == c + (|t| - 1) * c;
    }
  }

  lemma EqualCountsNoneAbove<K(!new)>(t: Counts<K>, c: nat)
    requires forall j :: 0 <= j < |t| ==> t[j].1 == c
    ensures AboveMean(t) == []
  {
    EqualCountsTotal(t, c);
    AboveNone(t, |t|, Total(t));
  }

  /** Counts {5, 5, 5, 15}: the mean is 7.5 and only the 15 is above it. */
  lemma AboveMeanExample()
    ensures AboveMean([("a", 5), ("b", 5), ("c", 5), ("d", 15)]) == [("d", 15)]
  {
    var t: Counts<string> := [("a", 5), ("b", 5), ("c", 5), ("d", 15)];
    assert Total(t[3..]) == 15;
    assert Total(t[2..]) == 20;
    assert Total(t[1..]) == 25;
    assert Total(t) == 30;
    assert Above(t[3..], 4, 30) == [("d", 15)];
    assert Above(t[2..], 4, 30) == [("d", 15)];
    assert Above(t[1..], 4, 30) == [("d", 15)];
  }
}
