/**
 * Sequence helpers shared by the store and the client pages: JavaScript's
 * `Array.prototype.filter`, the `reduce` that tallies occurrences into a
 * dictionary, and the sums over a dictionary an enumeration's values index.
 */
module Seqs {

  /** No element occurs twice. */
  ghost predicate Distinct<T>(s: seq<T>) {
    forall i, j :: 0 <= i < j < |s| ==> s[i] != s[j]
  }

  /** `r` is `s` with some elements left out, the rest in their original order. */
  ghost predicate IsSubsequence<T>(r: seq<T>, s: seq<T>)
    decreases |s|
  {
    if r == [] then true
    else if s == [] then false
    else (r[|r| - 1] == s[|s| - 1] && IsSubsequence(r[..|r| - 1], s[..|s| - 1]))
         || IsSubsequence(r, s[..|s| - 1])
  }

  /** `s.filter(p)`. */
  function Filter<T(!new)>(s: seq<T>, p: T -> bool): (r: seq<T>)
    ensures |r| <= |s|
    ensures forall x :: x in r <==> x in s && p(x)
    ensures forall i :: 0 <= i < |r| ==> p(r[i])
    decreases |s|
  {
    if s == [] then []
    else Filter(s[..|s| - 1], p) + (if p(s[|s| - 1]) then [s[|s| - 1]] else [])
  }

  lemma {:induction false} FilterIsSubsequence<T(!new)>(s: seq<T>, p: T -> bool)
    ensures IsSubsequence(Filter(s, p), s)
    decreases |s|
  {
    if s != [] {
      var init := s[..|s| - 1];
      FilterIsSubsequence(init, p);
      var r := Filter(s, p);
      if p(s[|s| - 1]) {
        assert r[..|r| - 1] == Filter(init, p);
      } else {
        assert r == Filter(init, p);
      }
    }
  }

  /** A predicate that holds of every element filters nothing out. */
  lemma {:induction false} FilterKeepsAll<T(!new)>(s: seq<T>, p: T -> bool)
    requires forall i :: 0 <= i < |s| ==> p(s[i])
    ensures Filter(s, p) == s
    decreases |s|
  {
    if s != [] {
      var init, last := s[..|s| - 1], s[|s| - 1];
      assert forall i :: 0 <= i < |init| ==> init[i] == s[i];
      FilterKeepsAll(init, p);
      assert p(last);
      assert init + [last] == s;
    }
  }

  /** Filtering with a stronger predicate keeps no more elements. */
  lemma {:induction false} FilterMonotone<T(!new)>(s: seq<T>, p: T -> bool, q: T -> bool)
    requires forall x :: p(x) ==> q(x)
    ensures |Filter(s, p)| <= |Filter(s, q)|
    decreases |s|
  {
    if s != [] {
      FilterMonotone(s[..|s| - 1], p, q);
    }
  }

  /** Two predicates that agree on every element of `s` filter it alike. */
  lemma {:induction false} FilterCongruent<T(!new)>(s: seq<T>, p: T -> bool, q: T -> bool)
    requires forall i :: 0 <= i < |s| ==> p(s[i]) == q(s[i])
    ensures Filter(s, p) == Filter(s, q)
    decreases |s|
  {
    if s != [] {
      FilterCongruent(s[..|s| - 1], p, q);
    }
  }

  /** Filtering twice is filtering once by both predicates. */
  lemma {:induction false} FilterFilter<T(!new)>(s: seq<T>, p: T -> bool, q: T -> bool, both: T -> bool)
    requires forall x :: both(x) == (p(x) && q(x))
    ensures Filter(Filter(s, p), q) == Filter(s, both)
    decreases |s|
  {
    if s != [] {
      var init := s[..|s| - 1];
      FilterFilter(init, p, q, both);
      var x := s[|s| - 1];
      var kept := Filter(s, p);
      if p(x) {
        assert kept == Filter(init, p) + [x];
        assert kept[..|kept| - 1] == Filter(init, p) && kept[|kept| - 1] == x;
      } else {
        assert kept == Filter(init, p);
      }
    }
  }

  /** `acc[k] || 0` on a tally dictionary. */
  function Get<K(==)>(m: map<K, nat>, k: K): nat {
    if k in m then m[k] else 0
  }

  /** How many elements of `s` have key `k`. */
  function CountKey<T, K(==)>(s: seq<T>, key: T -> K, k: K): nat
    decreases |s|
  {
    if s == [] then 0
    else CountKey(s[..|s| - 1], key, k) + (if key(s[|s| - 1]) == k then 1 else 0)
  }

  /** The dictionary `s.reduce((acc, x) => { acc[key(x)] = (acc[key(x)] || 0) + 1; return acc }, {})`. */
  function Tally<T, K(==)>(s: seq<T>, key: T -> K): map<K, nat>
    decreases |s|
  {
    if s == [] then map[]
    else
      var m := Tally(s[..|s| - 1], key);
      var k := key(s[|s| - 1]);
      m[k := Get(m, k) + 1]
  }

  /** The reduce loop itself: one pass, one increment per element. */
  method CountBy<T, K(==)>(items: seq<T>, key: T -> K) returns (acc: map<K, nat>)
    ensures acc == Tally(items, key)
  {
    acc := map[];
    for i := 0 to |items|
      invariant acc == Tally(items[..i], key)
    {
      assert items[..i + 1][..i] == items[..i];
      var k := key(items[i]);
      acc := acc[k := Get(acc, k) + 1];
    }
    assert items[..|items|] == items;
  }

  /**
   * A key is in the tally exactly when some element has it, and then it maps
   * to the number of such elements: keys with no element are absent, never 0.
   */
  lemma {:induction false} TallyCounts<T, K>(s: seq<T>, key: T -> K, k: K)
    ensures k in Tally(s, key) <==> CountKey(s, key, k) > 0
    ensures Get(Tally(s, key), k) == CountKey(s, key, k)
    ensures k in Tally(s, key) <==> exists i :: 0 <= i < |s| && key(s[i]) == k
    decreases |s|
  {
    if s != [] {
      var init := s[..|s| - 1];
      TallyCounts(init, key, k);
      if key(s[|s| - 1]) != k {
        if exists i :: 0 <= i < |s| && key(s[i]) == k {
          var i :| 0 <= i < |s| && key(s[i]) == k;
          assert init[i] == s[i];
        }
      }
    } else {
      assert Tally(s, key) == map[];
    }
  }

  /** Every value of a tally is positive. */
  lemma {:induction false} TallyPositive<T, K>(s: seq<T>, key: T -> K)
    ensures forall k :: k in Tally(s, key) ==> Tally(s, key)[k] > 0
    decreases |s|
  {
    if s != [] {
      TallyPositive(s[..|s| - 1], key);
    }
  }

  /** The sum of `m`'s values over the listed keys, an absent key counting 0. */
  function SumOver<K(==)>(keys: seq<K>, m: map<K, nat>): nat
    decreases |keys|
  {
    if keys == [] then 0 else Get(m, keys[0]) + SumOver(keys[1..], m)
  }

  lemma {:induction false} SumOverOutside<K>(keys: seq<K>, m: map<K, nat>, k: K, v: nat)
    requires k !in keys
    ensures SumOver(keys, m[k := v]) == SumOver(keys, m)
    decreases |keys|
  {
    if keys != [] {
      SumOverOutside(keys[1..], m, k, v);
    }
  }

  /** Adding one to a key listed once adds one to the sum. */
  lemma {:induction false} SumOverBump<K>(keys: seq<K>, m: map<K, nat>, k: K)
    requires Distinct(keys)
    requires k in keys
    ensures SumOver(keys, m[k := Get(m, k) + 1]) == SumOver(keys, m) + 1
    decreases |keys|
  {
    if keys[0] == k {
      assert k !in keys[1..] by {
        forall j | 0 <= j < |keys[1..]| ensures keys[1..][j] != k {
          assert keys[1..][j] == keys[j + 1];
        }
      }
      SumOverOutside(keys[1..], m, k, Get(m, k) + 1);
    } else {
      SumOverBump(keys[1..], m, k);
    }
  }

  /**
   * When the listed keys are distinct and cover every element's key, the
   * tally's values add up to the number of elements.
   */
  lemma {:induction false} TallySum<T, K>(s: seq<T>, key: T -> K, keys: seq<K>)
    requires Distinct(keys)
    requires forall i :: 0 <= i < |s| ==> key(s[i]) in keys
    ensures SumOver(keys, Tally(s, key)) == |s|
    decreases |s|
  {
    if s == [] {
      assert Tally(s, key) == map[];
      SumOverEmpty(keys);
    } else {
      var init := s[..|s| - 1];
      assert forall i :: 0 <= i < |init| ==> init[i] == s[i];
      TallySum(init, key, keys);
      SumOverBump(keys, Tally(init, key), key(s[|s| - 1]));
    }
  }

  lemma {:induction false} SumOverEmpty<K>(keys: seq<K>)
    ensures SumOver(keys, map[]) == 0
    decreases |keys|
  {
    if keys != [] {
      SumOverEmpty(keys[1..]);
    }
  }

  /** A sequence without repeats has as many elements as the set of its values. */
  lemma {:induction false} DistinctCardinality<T>(s: seq<T>, xs: set<T>)
    requires Distinct(s)
    requires forall x :: x in xs <==> x in s
    ensures |xs| == |s|
    decreases |s|
  {
    if s == [] {
      assert xs == {};
    } else {
      var last := s[|s| - 1];
      var init := s[..|s| - 1];
      assert Distinct(init);
      assert s == init + [last];
      DistinctCardinality(init, xs - {last});
    }
  }

  /** In a sequence without repeats, counting key `k` counts the values with that key. */
  lemma {:induction false} CountKeyCardinality<T, K>(s: seq<T>, key: T -> K, k: K, xs: set<T>)
    requires Distinct(s)
    requires forall x :: x in xs <==> x in s && key(x) == k
    ensures CountKey(s, key, k) == |xs|
    decreases |s|
  {
    if s == [] {
      assert xs == {};
    } else {
      var last := s[|s| - 1];
      var init := s[..|s| - 1];
      assert Distinct(init);
      assert s == init + [last];
      CountKeyCardinality(init, key, k, xs - {last});
    }
  }
}
