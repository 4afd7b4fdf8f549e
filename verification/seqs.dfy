/**
  Sequence helpers standing in for the SQL the repositories issue:
  filtering (`WHERE`), `DISTINCT` and grouped counts (`GROUP BY ... COUNT`).
 */
module Seqs {

  /** The elements of `s` satisfying `p`, in table order. */
  function Filter<T(!new)>(s: seq<T>, p: T -> bool): (r: seq<T>)
    ensures |r| <= |s|
    ensures forall x :: x in r <==> x in s && p(x)
    decreases |s|
  {
    if |s| == 0 then []
    else
      assert s == s[..|s| - 1] + [s[|s| - 1]];
      Filter(s[..|s| - 1], p) + (if p(s[|s| - 1]) then [s[|s| - 1]] else [])
  }

  lemma {:induction false} FilterAppend<T(!new)>(a: seq<T>, b: seq<T>, p: T -> bool)
    ensures Filter(a + b, p) == Filter(a, p) + Filter(b, p)
    decreases |b|
  {
    if |b| == 0 {
      assert a + b == a;
    } else {
      var init, x := b[..|b| - 1], b[|b| - 1];
      var ab := a + b;
      assert ab[..|ab| - 1] == a + init;
      assert ab[|ab| - 1] == x;
      FilterAppend(a, init, p);
      calc {
        Filter(ab, p);
        Filter(a + init, p) + (if p(x) then [x] else []);
        Filter(a, p) + Filter(init, p) + (if p(x) then [x] else []);
        Filter(a, p) + Filter(b, p);
      }
    }
  }

  /** Every element satisfies exactly one of `p` and its negation `q`. */
  lemma {:induction false} FilterComplement<T(!new)>(s: seq<T>, p: T -> bool, q: T -> bool)
    requires forall x :: q(x) == !p(x)
    ensures |Filter(s, p)| + |Filter(s, q)| == |s|
    decreases |s|
  {
    if |s| > 0 {
      FilterComplement(s[..|s| - 1], p, q);
    }
  }

  /** A weaker predicate never keeps fewer elements. */
  lemma {:induction false} FilterMonotone<T(!new)>(s: seq<T>, p: T -> bool, q: T -> bool)
    requires forall x :: p(x) ==> q(x)
    ensures |Filter(s, p)| <= |Filter(s, q)|
    decreases |s|
  {
    if |s| > 0 {
      FilterMonotone(s[..|s| - 1], p, q);
    }
  }

  /** A predicate that holds of every element keeps the whole sequence. */
  lemma {:induction false} FilterAll<T(!new)>(s: seq<T>, p: T -> bool)
    requires forall x :: x in s ==> p(x)
    ensures Filter(s, p) == s
    decreases |s|
  {
    if |s| > 0 {
      assert s == s[..|s| - 1] + [s[|s| - 1]];
      FilterAll(s[..|s| - 1], p);
    }
  }

  /** Filtering twice is filtering once on both conditions. */
  lemma {:induction false} FilterFilter<T(!new)>(s: seq<T>, p: T -> bool, q: T -> bool, pq: T -> bool)
    requires forall x :: pq(x) == (p(x) && q(x))
    ensures Filter(Filter(s, p), q) == Filter(s, pq)
    decreases |s|
  {
    if |s| > 0 {
      var init, x := s[..|s| - 1], s[|s| - 1];
      var e: seq<T> := if p(x) then [x] else [];
      FilterFilter(init, p, q, pq);
      FilterAppend(Filter(init, p), e, q);
      if p(x) {
        assert e[..0] == [];
      }
    }
  }

  predicate NoDup<T(==)>(s: seq<T>) {
    forall i, j :: 0 <= i < j < |s| ==> s[i] != s[j]
  }

  /** `SELECT DISTINCT`: the first occurrence of every value, in table order. */
  function Distinct<T(==,!new)>(s: seq<T>): (r: seq<T>)
    ensures NoDup(r)
    ensures forall x :: x in r <==> x in s
    decreases |s|
  {
    if |s| == 0 then []
    else
      var rest := Distinct(s[..|s| - 1]);
      var last := s[|s| - 1];
      assert s == s[..|s| - 1] + [last];
      if last in rest then rest else rest + [last]
  }

  /** How many elements of `s` have key `k` (`COUNT(*) ... GROUP BY key`). */
  function CountKey<T, K(==)>(s: seq<T>, key: T -> K, k: K): nat
    decreases |s|
  {
    if |s| == 0 then 0
    else CountKey(s[..|s| - 1], key, k) + (if key(s[|s| - 1]) == k then 1 else 0)
  }

  /** The group sizes of the keys `ks`, added up. */
  function SumCounts<T, K(==)>(s: seq<T>, key: T -> K, ks: seq<K>): nat
    decreases |ks|
  {
    if |ks| == 0 then 0 else CountKey(s, key, ks[0]) + SumCounts(s, key, ks[1..])
  }

  /** A filter on `key(x) == k` keeps exactly the `k` group. */
  lemma {:induction false} FilterCountsKey<T(!new), K>(s: seq<T>, p: T -> bool, key: T -> K, k: K)
    requires forall x :: p(x) == (key(x) == k)
    ensures |Filter(s, p)| == CountKey(s, key, k)
    decreases |s|
  {
    if |s| > 0 {
      FilterCountsKey(s[..|s| - 1], p, key, k);
    }
  }

  /** Only the groups named in `ks` are counted, and each at most once. */
  lemma {:induction false} SumCountsSnoc<T, K>(s: seq<T>, x: T, key: T -> K, ks: seq<K>)
    requires NoDup(ks)
    ensures SumCounts(s + [x], key, ks) == SumCounts(s, key, ks) + (if key(x) in ks then 1 else 0)
    decreases |ks|
  {
    if |ks| > 0 {
      var sx := s + [x];
      assert sx[..|sx| - 1] == s;
      assert NoDup(ks[1..]) by {
        forall i, j | 0 <= i < j < |ks| - 1 ensures ks[1..][i] != ks[1..][j] {
          assert ks[1..][i] == ks[i + 1] && ks[1..][j] == ks[j + 1];
        }
      }
      SumCountsSnoc(s, x, key, ks[1..]);
      assert key(x) in ks <==> key(x) == ks[0] || key(x) in ks[1..] by {
        assert ks == [ks[0]] + ks[1..];
      }
      if key(x) == ks[0] {
        assert key(x) !in ks[1..] by {
          forall i | 0 <= i < |ks| - 1 ensures ks[1..][i] != ks[0] {
            assert ks[1..][i] == ks[i + 1];
          }
        }
      }
    }
  }

  /**
    Grouping partitions the table: when `ks` lists every key without
    repetition, the group sizes add up to the table size.
   */
  lemma {:induction false} CountsCoverAll<T, K>(s: seq<T>, key: T -> K, ks: seq<K>)
    requires NoDup(ks)
    requires forall x :: x in s ==> key(x) in ks
    ensures SumCounts(s, key, ks) == |s|
    decreases |s|
  {
    if |s| == 0 {
      SumCountsEmpty(s, key, ks);
    } else {
      var init := s[..|s| - 1];
      assert s == init + [s[|s| - 1]];
      CountsCoverAll(init, key, ks);
      SumCountsSnoc(init, s[|s| - 1], key, ks);
    }
  }

  lemma {:induction false} SumCountsEmpty<T, K>(s: seq<T>, key: T -> K, ks: seq<K>)
    requires |s| == 0
    ensures SumCounts(s, key, ks) == 0
    decreases |ks|
  {
    if |ks| > 0 {
      SumCountsEmpty(s, key, ks[1..]);
    }
  }
}
