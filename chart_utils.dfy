/** `sortData` (src/components/graphs/shared/chartUtils.js): a sorted copy of table or chart
    rows by one key, strings by text order and numbers by value, ascending for "asc" and
    descending otherwise. */
module ChartUtils {
  import opened JsValues
  import opened Sorting

  /** Text order, code unit by code unit, a prefix first (`localeCompare` as an ordinal
      comparison). */
  predicate StrLe(a: string, b: string)
  {
    a == [] || (b != [] && (a[0] < b[0] || (a[0] == b[0] && StrLe(a[1..], b[1..]))))
  }

  lemma {:induction false} StrLeTotal(a: string, b: string)
    ensures StrLe(a, b) || StrLe(b, a)
  {
    if a != [] && b != [] && a[0] == b[0] {
      StrLeTotal(a[1..], b[1..]);
    }
  }

  lemma {:induction false} StrLeTransitive(a: string, b: string, c: string)
    requires StrLe(a, b) && StrLe(b, c)
    ensures StrLe(a, c)
  {
    if a != [] && a[0] == b[0] && b[0] == c[0] {
      StrLeTransitive(a[1..], b[1..], c[1..]);
    }
  }

  lemma {:induction false} StrLeAntisymmetric(a: string, b: string)
    requires StrLe(a, b) && StrLe(b, a)
    ensures a == b
  {
    if a != [] {
      StrLeAntisymmetric(a[1..], b[1..]);
    }
  }

  /** The rank of a key's kind: other values, then numbers, then strings. Rows of one kind
      never compare across kinds. */
  function KindRank(v: JsValue): nat
  {
    if v.Num? then 1 else if v.Str? then 2 else 0
  }

  /** Ascending order of two key values: text order for strings, value order for numbers. */
  predicate KeyLe(x: JsValue, y: JsValue)
  {
    if x.Str? && y.Str? then StrLe(x.s, y.s)
    else if x.Num? && y.Num? then x.n <= y.n
    else KindRank(x) <= KindRank(y)
  }

  lemma KeyLeIsTotalPreorder()
    ensures TotalPreorder(KeyLe)
  {
    forall x, y ensures KeyLe(x, y) || KeyLe(y, x) {
      if x.Str? && y.Str? {
        StrLeTotal(x.s, y.s);
      }
    }
    forall x, y, z | KeyLe(x, y) && KeyLe(y, z) ensures KeyLe(x, z) {
      if x.Str? && y.Str? && z.Str? {
        StrLeTransitive(x.s, y.s, z.s);
      }
    }
  }

  /** `sortOrder === "asc"`; anything else, the default "desc" included, sorts descending. */
  predicate Ascending(sortOrder: JsValue)
  {
    sortOrder == Str("asc")
  }

  /** The comparator's "may come first": `a[sortKey]` before `b[sortKey]` in the chosen
      direction. */
  function RowLe(sortKey: string, asc: bool): (le: (JsValue, JsValue) -> bool)
    ensures TotalPreorder(le)
  {
    KeyLeIsTotalPreorder();
    if asc then (a, b) => KeyLe(Get(a, sortKey), Get(b, sortKey))
    else (a, b) => KeyLe(Get(b, sortKey), Get(a, sortKey))
  }

  /** The comparator is consistent only when the key holds values of one kind: all strings
      (`localeCompare`) or all numbers (subtraction). */
  predicate Comparable(data: seq<JsValue>, sortKey: string)
  {
    (forall i :: 0 <= i < |data| ==> Get(data[i], sortKey).Str?)
    || (forall i :: 0 <= i < |data| ==> Get(data[i], sortKey).Num?)
  }

  /** `sortData(data, sortKey, sortOrder)`: a reordering of a copy of the rows, ordered by the
      key in the chosen direction. */
  function SortData(data: seq<JsValue>, sortKey: string, sortOrder: JsValue): (r: seq<JsValue>)
    requires Comparable(data, sortKey)
    ensures |r| == |data| && multiset(r) == multiset(data)
    ensures Sorted(r, RowLe(sortKey, Ascending(sortOrder)))
  {
    var le := RowLe(sortKey, Ascending(sortOrder));
    SortBySorted(data, le);
    SortBy(data, le)
  }

  /** Ascending numbers come smallest first, descending largest first. */
  lemma NumbersInOrder(data: seq<JsValue>, sortKey: string, sortOrder: JsValue, i: nat, j: nat)
    requires forall k :: 0 <= k < |data| ==> Get(data[k], sortKey).Num?
    requires i < j < |data|
    ensures var r := SortData(data, sortKey, sortOrder);
            Get(r[i], sortKey).Num? && Get(r[j], sortKey).Num?
            && (Ascending(sortOrder) ==> Get(r[i], sortKey).n <= Get(r[j], sortKey).n)
            && (!Ascending(sortOrder) ==> Get(r[i], sortKey).n >= Get(r[j], sortKey).n)
  {
    var r := SortData(data, sortKey, sortOrder);
    assert r[i] in multiset(data) by { assert r[i] in r; }
    assert r[j] in multiset(data) by { assert r[j] in r; }
  }

  /** Ascending strings come in text order, descending in reverse text order. */
  lemma StringsInOrder(data: seq<JsValue>, sortKey: string, sortOrder: JsValue, i: nat, j: nat)
    requires forall k :: 0 <= k < |data| ==> Get(data[k], sortKey).Str?
    requires i < j < |data|
    ensures var r := SortData(data, sortKey, sortOrder);
            Get(r[i], sortKey).Str? && Get(r[j], sortKey).Str?
            && (Ascending(sortOrder) ==> StrLe(Get(r[i], sortKey).s, Get(r[j], sortKey).s))
            && (!Ascending(sortOrder) ==> StrLe(Get(r[j], sortKey).s, Get(r[i], sortKey).s))
  {
    var r := SortData(data, sortKey, sortOrder);
    assert r[i] in multiset(data) by { assert r[i] in r; }
    assert r[j] in multiset(data) by { assert r[j] in r; }
  }
}
