/** The library sorts the core calls (`sort.Ints`, `sort.Sort`, `sort.Slice`,
    `Array.prototype.sort`), over a comparison `le` that says "may come first". The model sorts
    by stable insertion and proves the result ordered and a permutation of the input. */
module Sorting {

  /** `le` orders every pair and is transitive. */
  ghost predicate TotalPreorder<T(!new)>(le: (T, T) -> bool)
  {
    (forall a, b :: le(a, b) || le(b, a))
    && (forall a, b, c :: le(a, b) && le(b, c) ==> le(a, c))
  }

  predicate Sorted<T>(s: seq<T>, le: (T, T) -> bool)
  {
    forall i, j :: 0 <= i < j < |s| ==> le(s[i], s[j])
  }

  /** Places `x` after the leading run of elements that may come before it. */
  function Insert<T>(x: T, s: seq<T>, le: (T, T) -> bool): (r: seq<T>)
    ensures |r| == |s| + 1
    ensures multiset(r) == multiset(s) + multiset{x}
  {
    if s == [] || !le(s[0], x) then [x] + s
    else
      assert s == [s[0]] + s[1..];
      [s[0]] + Insert(x, s[1..], le)
  }

  lemma {:induction false} InsertSorted<T(!new)>(x: T, s: seq<T>, le: (T, T) -> bool)
    requires TotalPreorder(le) && Sorted(s, le)
    ensures Sorted(Insert(x, s, le), le)
  {
    if s == [] || !le(s[0], x) {
      if s != [] {
        assert le(x, s[0]);
        forall j | 0 <= j < |s| ensures le(x, s[j]) {
          if j > 0 {
            assert le(s[0], s[j]);
          }
        }
      }
    } else {
      InsertSorted(x, s[1..], le);
      var r := Insert(x, s, le);
      var t := Insert(x, s[1..], le);
      assert r == [s[0]] + t;
      forall j | 0 <= j < |t| ensures le(s[0], t[j]) {
        assert t[j] in multiset(t);
        assert t[j] in multiset(s[1..]) + multiset{x};
        if t[j] != x || t[j] in multiset(s[1..]) {
          var k :| 0 <= k < |s[1..]| && s[1..][k] == t[j];
          assert s[k + 1] == t[j];
        }
      }
    }
  }

  /** The input in `le` order, equal elements keeping their input order. */
  function SortBy<T>(s: seq<T>, le: (T, T) -> bool): (r: seq<T>)
    ensures |r| == |s|
    ensures multiset(r) == multiset(s)
  {
    if s == [] then []
    else
      assert s == s[..|s| - 1] + [s[|s| - 1]];
      Insert(s[|s| - 1], SortBy(s[..|s| - 1], le), le)
  }

  /** SortBy orders its input. */
  lemma {:induction false} SortBySorted<T(!new)>(s: seq<T>, le: (T, T) -> bool)
    requires TotalPreorder(le)
    ensures Sorted(SortBy(s, le), le)
  {
    if s != [] {
      SortBySorted(s[..|s| - 1], le);
      InsertSorted(s[|s| - 1], SortBy(s[..|s| - 1], le), le);
    }
  }

  /** Dropping the first element keeps a sequence ordered. */
  lemma SortedTail<T>(r: seq<T>, le: (T, T) -> bool)
    requires Sorted(r, le) && |r| > 0
    ensures Sorted(r[1..], le)
  {
    var tail := r[1..];
    forall i, j | 0 <= i < j < |tail| ensures le(tail[i], tail[j]) {
      assert tail[i] == r[i + 1] && tail[j] == r[j + 1];
    }
  }

  /** The first element of an ordered permutation may come before every input element, and
      every input element may come before the last. */
  lemma SortedEnds<T(!new)>(s: seq<T>, r: seq<T>, le: (T, T) -> bool)
    requires TotalPreorder(le)
    requires Sorted(r, le) && multiset(r) == multiset(s) && |r| > 0
    ensures forall k :: 0 <= k < |s| ==> le(r[0], s[k]) && le(s[k], r[|r| - 1])
  {
    forall k | 0 <= k < |s| ensures le(r[0], s[k]) && le(s[k], r[|r| - 1]) {
      assert s[k] in multiset(r);
      var i :| 0 <= i < |r| && r[i] == s[k];
      var x := r[i];
      assert le(x, x) || le(x, x);
    }
  }

  /** Removing one position removes one occurrence of its value. */
  lemma RemoveAt<T>(s: seq<T>, i: nat)
    requires i < |s|
    ensures multiset(s[..i] + s[i + 1..]) == multiset(s) - multiset{s[i]}
  {
    assert s == s[..i] + [s[i]] + s[i + 1..];
  }

  /** Two positions of a sequence hold values drawn from two different positions of any
      permutation of it. */
  lemma TwoPositions<T>(s: seq<T>, r: seq<T>, a: nat, b: nat)
    requires multiset(r) == multiset(s) && a < b < |r|
    ensures exists i, j :: 0 <= i < |s| && 0 <= j < |s| && i != j && s[i] == r[a] && s[j] == r[b]
  {
    assert r[a] in multiset(s) by { assert r[a] in r; }
    var i :| 0 <= i < |s| && s[i] == r[a];
    var rest := s[..i] + s[i + 1..];
    var others := r[..a] + r[a + 1..];
    RemoveAt(s, i);
    RemoveAt(r, a);
    assert multiset(rest) == multiset(others);
    assert others[b - 1] == r[b];
    assert r[b] in multiset(rest) by { assert r[b] in others; }
    var j' :| 0 <= j' < |rest| && rest[j'] == r[b];
    var j := if j' < i then j' else j' + 1;
    assert s[j] == rest[j'];
  }
}
