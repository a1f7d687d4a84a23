/** Lists of records addressed by a key, as the three stores keep them: the
    set of keys in a list, distinctness of keys, and how `filter`, `find` and
    in-place replacement interact with them. */
module Keyed {
  import opened Base
  import opened Seqs

  /** The keys of the records in a list. */
  function Keys<T, K>(xs: seq<T>, key: T -> K): set<K>
  {
    set i | 0 <= i < |xs| :: key(xs[i])
  }

  /** No key occurs twice in the list. */
  predicate Distinct<T, K(==)>(xs: seq<T>, key: T -> K)
  {
    forall i, j :: 0 <= i < j < |xs| ==> key(xs[i]) != key(xs[j])
  }

  /** `x => key(x) === k`, the predicate of `find`/`findIndex` by id. */
  function HasKey<T, K(==)>(key: T -> K, k: K): T -> bool
  {
    x => key(x) == k
  }

  /** `x => key(x) !== k`, the predicate of `filter` in `delete`. */
  function LacksKey<T, K(==)>(key: T -> K, k: K): T -> bool
  {
    x => key(x) != k
  }

  /** Appending a record adds its key; the keys stay distinct when the new
      key is not already present. */
  lemma AppendKeys<T, K>(xs: seq<T>, x: T, key: T -> K)
    ensures Keys(xs + [x], key) == Keys(xs, key) + {key(x)}
    ensures Distinct(xs, key) && key(x) !in Keys(xs, key) ==> Distinct(xs + [x], key)
  {
    var ys := xs + [x];
    assert ys[|xs|] == x;
    forall y | y in Keys(xs, key) ensures y in Keys(ys, key) {
      var i :| 0 <= i < |xs| && key(xs[i]) == y;
      assert ys[i] == xs[i];
    }
    if Distinct(xs, key) && key(x) !in Keys(xs, key) {
      forall i, j | 0 <= i < j < |ys| ensures key(ys[i]) != key(ys[j]) {
        assert ys[i] == xs[i];
        if j < |xs| {
          assert ys[j] == xs[j];
        }
      }
    }
  }

  /** Filtering out one key removes exactly that key from the list's keys. */
  lemma FilterDropsKey<T, K>(xs: seq<T>, key: T -> K, k: K)
    ensures Keys(Filter(xs, LacksKey(key, k)), key) == Keys(xs, key) - {k}
  {
    var kept := Filter(xs, LacksKey(key, k));
    forall y | y in Keys(kept, key) ensures y in Keys(xs, key) && y != k {
      var i :| 0 <= i < |kept| && key(kept[i]) == y;
      assert LacksKey(key, k)(kept[i]);
      var j :| 0 <= j < |xs| && xs[j] == kept[i];
    }
    forall y | y in Keys(xs, key) && y != k ensures y in Keys(kept, key) {
      var i :| 0 <= i < |xs| && key(xs[i]) == y;
      assert LacksKey(key, k)(xs[i]);
      var j :| 0 <= j < |kept| && kept[j] == xs[i];
    }
  }

  /** A list with a head has distinct keys exactly when its tail does and the
      head's key does not recur in it. */
  lemma DistinctCons<T, K>(x: T, xs: seq<T>, key: T -> K)
    ensures Distinct([x] + xs, key) <==> key(x) !in Keys(xs, key) && Distinct(xs, key)
  {
    var ys := [x] + xs;
    if Distinct(ys, key) {
      forall j | 0 <= j < |xs| ensures key(xs[j]) != key(x) {
        assert ys[0] == x && ys[j + 1] == xs[j];
        assert key(ys[0]) != key(ys[j + 1]);
      }
      forall i, j | 0 <= i < j < |xs| ensures key(xs[i]) != key(xs[j]) {
        assert ys[i + 1] == xs[i] && ys[j + 1] == xs[j];
      }
    }
  }

  /** Filtering keeps keys distinct. */
  lemma {:induction false} FilterKeepsDistinct<T, K>(xs: seq<T>, key: T -> K, p: T -> bool)
    ensures Distinct(xs, key) ==> Distinct(Filter(xs, p), key)
  {
    if |xs| > 0 && Distinct(xs, key) {
      assert xs == [xs[0]] + xs[1..];
      DistinctCons(xs[0], xs[1..], key);
      FilterKeepsDistinct(xs[1..], key, p);
      var rest := Filter(xs[1..], p);
      if p(xs[0]) {
        forall i | 0 <= i < |rest| ensures key(rest[i]) != key(xs[0]) {
          var j :| 0 <= j < |xs[1..]| && xs[1..][j] == rest[i];
        }
        DistinctCons(xs[0], rest, key);
      }
    }
  }

  /** Replacing a record by one with the same key changes neither the set of
      keys nor their distinctness. */
  lemma ReplaceKeepsKeys<T, K>(xs: seq<T>, i: int, x: T, key: T -> K)
    requires 0 <= i < |xs| && key(x) == key(xs[i])
    ensures Keys(xs[i := x], key) == Keys(xs, key)
    ensures Distinct(xs, key) ==> Distinct(xs[i := x], key)
  {
    var ys := xs[i := x];
    forall y | y in Keys(ys, key) ensures y in Keys(xs, key) {
      var j :| 0 <= j < |ys| && key(ys[j]) == y;
      assert key(xs[j]) == y;
    }
    forall y | y in Keys(xs, key) ensures y in Keys(ys, key) {
      var j :| 0 <= j < |xs| && key(xs[j]) == y;
      assert key(ys[j]) == y;
    }
  }

  /** With distinct keys, the first record carrying a listed record's key is
      that record. */
  lemma FindIndexDistinct<T, K>(xs: seq<T>, key: T -> K, i: int)
    requires Distinct(xs, key) && 0 <= i < |xs|
    ensures FindIndex(xs, HasKey(key, key(xs[i]))) == i
  {
    assert HasKey(key, key(xs[i]))(xs[i]);
  }

  /** With distinct keys, looking a record's key up finds that record exactly
      when it is listed. */
  lemma FindDistinct<T, K>(xs: seq<T>, key: T -> K, x: T)
    requires Distinct(xs, key)
    ensures Find(xs, HasKey(key, key(x))) == Some(x) <==> x in xs
  {
    if x in xs {
      var i :| 0 <= i < |xs| && xs[i] == x;
      FindIndexDistinct(xs, key, i);
    }
  }
}
