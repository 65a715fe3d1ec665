/**
 * The part of the query engine the store relies on: a `WHERE` made of a
 * list of conditions that must all hold (drizzle's `and(...conditions)`),
 * and a `SELECT ... ORDER BY` that returns the matching rows of a table
 * once each, sorted by a rank. Rows with equal rank come back in an
 * unspecified order, as they do from the database.
 */
module Queries {
  import opened Seqs

  /** `and(...conditions)`: every pushed condition holds of `x`. */
  predicate AllHold<T>(conditions: seq<T -> bool>, x: T) {
    forall i | 0 <= i < |conditions| :: conditions[i](x)
  }

  /** A single condition holds exactly when it holds. */
  lemma AllHoldOne<T>(c: T -> bool)
    ensures forall x :: AllHold([c], x) <==> c(x)
  {
    forall x ensures AllHold([c], x) <==> c(x) {
      assert [c][0] == c;
    }
  }

  /** Pushing a condition conjoins it. */
  lemma AllHoldPush<T>(conditions: seq<T -> bool>, c: T -> bool)
    ensures forall x :: AllHold(conditions + [c], x) <==> AllHold(conditions, x) && c(x)
  {
    forall x ensures AllHold(conditions + [c], x) <==> AllHold(conditions, x) && c(x) {
      assert (conditions + [c])[|conditions|] == c;
      assert forall i :: 0 <= i < |conditions| ==> (conditions + [c])[i] == conditions[i];
    }
  }

  /** A table's rows in nondecreasing order of `rank`. */
  ghost predicate SortedBy<R>(s: seq<R>, rank: R -> int) {
    forall i, j :: 0 <= i < j < |s| ==> rank(s[i]) <= rank(s[j])
  }

  /** `s` with `x` placed before the first element that ranks above it. */
  function InsertSorted<R(!new)>(s: seq<R>, x: R, rank: R -> int): (r: seq<R>)
    requires SortedBy(s, rank)
    ensures |r| == |s| + 1
    ensures forall y :: y in r <==> y == x || y in s
    ensures SortedBy(r, rank)
    ensures Distinct(s) && x !in s ==> Distinct(r)
    decreases |s|
  {
    if s == [] || rank(x) <= rank(s[0]) then
      [x] + s
    else
      var tail := InsertSorted(s[1..], x, rank);
      assert forall y :: y in tail ==> rank(s[0]) <= rank(y) by {
        forall y | y in tail ensures rank(s[0]) <= rank(y) {
          if y != x {
            var j :| 0 <= j < |s[1..]| && s[1..][j] == y;
            assert s[j + 1] == y;
          }
        }
      }
      assert Distinct(s) ==> s[0] !in s[1..] by {
        if Distinct(s) {
          forall j | 0 <= j < |s[1..]| ensures s[1..][j] != s[0] {
            assert s[1..][j] == s[j + 1];
          }
        }
      }
      [s[0]] + tail
  }

  /**
   * `SELECT * FROM table WHERE keep ORDER BY rank`: exactly the rows of
   * `table` that satisfy `keep`, each once, in nondecreasing rank.
   */
  method SelectRows<R(!new)>(table: map<string, R>, key: R -> string, keep: R -> bool, rank: R -> int)
    returns (rows: seq<R>)
    requires forall k :: k in table ==> key(table[k]) == k
    ensures forall x :: x in rows <==> key(x) in table && table[key(x)] == x && keep(x)
    ensures Distinct(rows)
    ensures SortedBy(rows, rank)
  {
    rows := [];
    var rest := table.Keys;
    while rest != {}
      invariant rest <= table.Keys
      invariant Distinct(rows) && SortedBy(rows, rank)
      invariant forall x :: x in rows ==> key(x) in table && key(x) !in rest && table[key(x)] == x && keep(x)
      invariant forall k :: k in table && k !in rest && keep(table[k]) ==> table[k] in rows
      decreases |rest|
    {
      var k :| k in rest;
      if keep(table[k]) {
        rows := InsertSorted(rows, table[k], rank);
      }
      rest := rest - {k};
    }
  }

  /** Distinct rows carrying their own key have distinct keys. */
  lemma DistinctKeys<R>(rows: seq<R>, table: map<string, R>, key: R -> string)
    requires Distinct(rows)
    requires forall x :: x in rows ==> key(x) in table && table[key(x)] == x
    ensures forall i, j :: 0 <= i < j < |rows| ==> key(rows[i]) != key(rows[j])
  {
    forall i, j | 0 <= i < j < |rows| ensures key(rows[i]) != key(rows[j]) {
      assert rows[i] in rows && rows[j] in rows;
    }
  }

  /** `LIMIT take` keeps a prefix: still repeat-free, still sorted, nothing new. */
  lemma LimitKeepsOrder<R>(rows: seq<R>, rank: R -> int, take: nat)
    requires Distinct(rows) && SortedBy(rows, rank) && take <= |rows|
    ensures Distinct(rows[..take]) && SortedBy(rows[..take], rank)
    ensures forall x :: x in rows[..take] ==> x in rows
  {
  }

  /**
   * `LIMIT take` on a sorted result: a row cut off ranks no lower than
   * every row kept, and it was cut off only because `take` rows were kept.
   */
  lemma CutOffRanksLast<R>(rows: seq<R>, rank: R -> int, take: nat, x: R)
    requires SortedBy(rows, rank) && take <= |rows|
    requires x in rows && x !in rows[..take]
    ensures take < |rows|
    ensures forall i :: 0 <= i < take ==> rank(rows[i]) <= rank(x)
  {
    var idx :| 0 <= idx < |rows| && rows[idx] == x;
  }
}
