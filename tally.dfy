/** Occurrence counts kept in a map, as the statistics build them with `counts[key]++`. */
module Tally {

  /** How many times `k` occurs in `ks`. */
  function Occurrences<K(==)>(ks: seq<K>, k: K): nat
  {
    if |ks| == 0 then 0
    else Occurrences(ks[..|ks| - 1], k) + (if ks[|ks| - 1] == k then 1 else 0)
  }

  /** `m` holds, for every key that occurs in `ks` and for no other, its number of occurrences. */
  ghost predicate Counts<K(!new)>(m: map<K, nat>, ks: seq<K>)
  {
    (forall k :: k in m <==> Occurrences(ks, k) > 0)
    && (forall k :: k in m ==> m[k] == Occurrences(ks, k))
  }

  /** `m[k]++` on a Go map, where a missing key reads as 0. */
  function Bump<K>(m: map<K, nat>, k: K): (r: map<K, nat>)
    ensures r.Keys == m.Keys + {k}
    ensures r[k] == (if k in m then m[k] else 0) + 1
    ensures forall j :: j in m && j != k ==> r[j] == m[j]
  {
    m[k := (if k in m then m[k] else 0) + 1]
  }

  lemma OccurrencesSnoc<K>(ks: seq<K>, x: K, k: K)
    ensures Occurrences(ks + [x], k) == Occurrences(ks, k) + (if x == k then 1 else 0)
  {
    assert (ks + [x])[..|ks|] == ks;
  }

  /** Occurrences over two lists joined are the occurrences in each. */
  lemma {:induction false} OccurrencesAppend<K>(xs: seq<K>, ys: seq<K>, k: K)
    ensures Occurrences(xs + ys, k) == Occurrences(xs, k) + Occurrences(ys, k)
    decreases |ys|
  {
    if |ys| > 0 {
      var ys', y := ys[..|ys| - 1], ys[|ys| - 1];
      assert ys == ys' + [y];
      assert xs + ys == (xs + ys') + [y];
      OccurrencesAppend(xs, ys', k);
      OccurrencesSnoc(xs + ys', y, k);
      OccurrencesSnoc(ys', y, k);
    } else {
      assert xs + ys == xs;
    }
  }

  /** Bumping a key keeps the map an exact count of the keys seen. */
  lemma BumpCounts<K(!new)>(m: map<K, nat>, ks: seq<K>, k: K)
    requires Counts(m, ks)
    ensures Counts(Bump(m, k), ks + [k])
  {
    forall j ensures Occurrences(ks + [k], j) == Occurrences(ks, j) + (if k == j then 1 else 0) {
      OccurrencesSnoc(ks, k, j);
    }
  }

  /** The sum of a map's counts. */
  ghost function MapTotal<K(!new)>(m: map<K, nat>): nat
    decreases |m.Keys|
  {
    if m == map[] then 0
    else
      var k :| k in m;
      m[k] + MapTotal(m - {k})
  }

  /** The sum does not depend on which key is taken first. */
  lemma {:induction false} MapTotalRemove<K(!new)>(m: map<K, nat>, k: K)
    requires k in m
    ensures MapTotal(m) == m[k] + MapTotal(m - {k})
    decreases |m.Keys|
  {
    var j :| j in m && MapTotal(m) == m[j] + MapTotal(m - {j});
    if j != k {
      assert (m - {j}) - {k} == (m - {k}) - {j};
      MapTotalRemove(m - {j}, k);
      MapTotalRemove(m - {k}, j);
    }
  }

  /** The counts of a counting map add up to the number of keys counted. */
  lemma {:induction false} CountsTotal<K(!new)>(m: map<K, nat>, ks: seq<K>)
    requires Counts(m, ks)
    ensures MapTotal(m) == |ks|
    decreases |ks|
  {
    if |ks| > 0 {
      var ks' := ks[..|ks| - 1];
      var x := ks[|ks| - 1];
      assert ks == ks' + [x];
      forall j ensures Occurrences(ks, j) == Occurrences(ks', j) + (if x == j then 1 else 0) {
        OccurrencesSnoc(ks', x, j);
      }
      var m' := if m[x] == 1 then m - {x} else m[x := m[x] - 1];
      assert Counts(m', ks');
      CountsTotal(m', ks');
      MapTotalRemove(m, x);
      if m[x] != 1 {
        MapTotalRemove(m', x);
        assert m' - {x} == m - {x};
      }
    }
  }
}
