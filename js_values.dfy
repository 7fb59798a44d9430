/** The JavaScript values the frontend code reads from the backend's JSON, and the operators it
    applies to them: property reads, truthiness, `||`, `??`, `===`, `parseInt` and the string
    form of a property key. Numbers are integers here. */
module JsValues {
  import opened Wrappers
  import opened Text

  datatype JsValue =
    | Undefined
    | Null
    | Bool(b: bool)
    | Num(n: int)
    | Str(s: string)
    | Arr(items: seq<JsValue>)
    | Obj(fields: map<string, JsValue>)

  /** `v.key` / `v?.key`: an object's own field, and `undefined` for a missing field or a value
      that is not an object. */
  function Get(v: JsValue, key: string): (r: JsValue)
    ensures v.Obj? && key in v.fields ==> r == v.fields[key]
    ensures !(v.Obj? && key in v.fields) ==> r.Undefined?
  {
    if v.Obj? && key in v.fields then v.fields[key] else Undefined
  }

  /** ECMAScript ToBoolean. */
  predicate Truthy(v: JsValue)
  {
    match v
    case Undefined => false
    case Null => false
    case Bool(b) => b
    case Num(n) => n != 0
    case Str(s) => s != ""
    case Arr(_) => true
    case Obj(_) => true
  }

  predicate Nullish(v: JsValue)
  {
    v.Undefined? || v.Null?
  }

  /** `a || b`. */
  function Or(a: JsValue, b: JsValue): (r: JsValue)
    ensures Truthy(a) ==> r == a
    ensures !Truthy(a) ==> r == b
  {
    if Truthy(a) then a else b
  }

  /** `a ?? b`: only `null` and `undefined` fall through, so `0`, `false` and `""` are kept. */
  function Coalesce(a: JsValue, b: JsValue): (r: JsValue)
    ensures !Nullish(a) ==> r == a
    ensures Nullish(a) ==> r == b
  {
    if Nullish(a) then b else a
  }

  /** `a === b` on the values compared here. Arrays and objects are equal only to themselves by
      reference, which a value model cannot see; they are never equal here. */
  predicate StrictEq(a: JsValue, b: JsValue)
  {
    !a.Arr? && !a.Obj? && a == b
  }

  /** `??` never changes a value that is already set, and `x ?? x` is `x`. */
  lemma CoalesceAbsorbs(a: JsValue, b: JsValue)
    ensures Coalesce(Coalesce(a, b), b) == Coalesce(a, b)
    ensures Coalesce(a, a) == a
  {
  }

  // ---------------------------------------------------------------- arrays

  /** `Array.prototype.some`. */
  function Any<T>(s: seq<T>, p: T -> bool): (r: bool)
    ensures r <==> exists i :: 0 <= i < |s| && p(s[i])
  {
    if s == [] then false
    else
      var init := s[..|s| - 1];
      assert forall i :: 0 <= i < |init| ==> init[i] == s[i];
      Any(init, p) || p(s[|s| - 1])
  }

  /** `some` over a sub-list holding exactly the elements passing `keep`: some element of
      the whole list passes both tests. */
  lemma AnyOfSublist<T(!new)>(xs: seq<T>, ys: seq<T>, keep: T -> bool, q: T -> bool)
    requires forall x :: x in ys <==> x in xs && keep(x)
    ensures Any(ys, q) <==> exists i :: 0 <= i < |xs| && keep(xs[i]) && q(xs[i])
  {
    if Any(ys, q) {
      var j :| 0 <= j < |ys| && q(ys[j]);
      assert ys[j] in ys;
    }
    if i :| 0 <= i < |xs| && keep(xs[i]) && q(xs[i]) {
      assert xs[i] in ys;
    }
  }

  /** The position `Array.prototype.find` stops at. */
  function FindIndex<T>(s: seq<T>, p: T -> bool): (r: Option<nat>)
    ensures r.Some? ==> r.value < |s| && p(s[r.value]) && forall j :: 0 <= j < r.value ==> !p(s[j])
    ensures r.None? ==> forall j :: 0 <= j < |s| ==> !p(s[j])
  {
    if s == [] then None
    else if p(s[0]) then Some(0)
    else
      var t := FindIndex(s[1..], p);
      assert forall j :: 1 <= j < |s| ==> s[1..][j - 1] == s[j];
      if t.Some? then Some(t.value + 1) else None
  }

  /** `Array.prototype.find`: the first element satisfying `p`, else `undefined`. */
  function Find(s: seq<JsValue>, p: JsValue -> bool): (r: JsValue)
  {
    var i := FindIndex(s, p);
    if i.Some? then s[i.value] else Undefined
  }

  /** `find` stops at the head when the head passes. */
  lemma FindHead(s: seq<JsValue>, p: JsValue -> bool)
    requires s != [] && p(s[0])
    ensures Find(s, p) == s[0]
  {
  }

  /** `Array.prototype.filter`: the elements satisfying `p`, in order. */
  function Filter<T(!new)>(s: seq<T>, p: T -> bool): (r: seq<T>)
    ensures |r| <= |s|
    ensures forall x :: x in r <==> x in s && p(x)
    ensures forall x :: multiset(r)[x] == if p(x) then multiset(s)[x] else 0
  {
    if s == [] then []
    else
      var x := s[|s| - 1];
      assert s == s[..|s| - 1] + [x];
      Filter(s[..|s| - 1], p) + (if p(x) then [x] else [])
  }

  /** Filtering one more element keeps the earlier result in front and appends the element
      exactly when it passes: the result keeps the input's order. */
  lemma FilterSnoc<T(!new)>(s: seq<T>, x: T, p: T -> bool)
    ensures Filter(s + [x], p) == Filter(s, p) + (if p(x) then [x] else [])
  {
    assert (s + [x])[..|s|] == s;
  }

  /** Filtering keeps the first element satisfying the test in front. */
  lemma {:induction false} FilterFirst<T(!new)>(s: seq<T>, p: T -> bool)
    ensures var i := FindIndex(s, p);
            (i.None? <==> Filter(s, p) == []) && (i.Some? ==> Filter(s, p)[0] == s[i.value])
  {
    if s != [] {
      var init, x := s[..|s| - 1], s[|s| - 1];
      assert s == init + [x];
      FilterFirst(init, p);
      FilterSnoc(init, x, p);
      FindIndexSnoc(init, x, p);
      var i' := FindIndex(init, p);
      if i'.Some? {
        assert Filter(s, p)[0] == Filter(init, p)[0];
        assert init[i'.value] == s[i'.value];
      }
    }
  }

  /** One more element is found only when none before it passes. */
  lemma {:induction false} FindIndexSnoc<T>(init: seq<T>, x: T, p: T -> bool)
    ensures FindIndex(init + [x], p)
            == if FindIndex(init, p).Some? then FindIndex(init, p)
               else if p(x) then Some(|init|) else None
  {
    if init != [] {
      assert (init + [x])[0] == init[0];
      if !p(init[0]) {
        assert (init + [x])[1..] == init[1..] + [x];
        FindIndexSnoc(init[1..], x, p);
      }
    }
  }

  /** The elements of an array value, or none for a missing (falsy) value: `(v || [])`. */
  function Elements(v: JsValue): (r: seq<JsValue>)
    ensures v.Arr? ==> r == v.items
    ensures !v.Arr? ==> r == []
  {
    if v.Arr? then v.items else []
  }

  /** `(v || [])` is a list: `v` is an array or falsy. A truthy non-array throws a TypeError at
      `.filter`/`.some`/`.map`. */
  predicate ListOrFalsy(v: JsValue)
  {
    v.Arr? || !Truthy(v)
  }

  /** `v?.some(…)` and friends do not throw: `v` is an array or nullish. */
  predicate ListOrNullish(v: JsValue)
  {
    v.Arr? || Nullish(v)
  }

  // ---------------------------------------------------------------- parseInt

  /** The characters JavaScript's `parseInt` skips in front of a number. */
  predicate IsJsSpace(c: char) {
    c == '\t' || c == '\n' || c == '\U{000B}' || c == '\U{000C}' || c == '\r' || c == ' ' ||
    c == '\U{00A0}' || c == '\U{1680}' || ('\U{2000}' <= c <= '\U{200A}') || c == '\U{2028}' ||
    c == '\U{2029}' || c == '\U{202F}' || c == '\U{205F}' || c == '\U{3000}' || c == '\U{FEFF}'
  }

  function SkipJsSpace(s: string): (r: string)
    ensures |r| <= |s| && r == s[|s| - |r|..]
    ensures r != [] ==> !IsJsSpace(r[0])
  {
    if s != [] && IsJsSpace(s[0]) then SkipJsSpace(s[1..]) else s
  }

  predicate IsHexDigit(c: char) {
    IsDigit(c) || 'a' <= c <= 'f' || 'A' <= c <= 'F'
  }

  function HexDigitValue(c: char): (d: nat)
    requires IsHexDigit(c)
    ensures d < 16
  {
    if IsDigit(c) then c as int - '0' as int
    else if 'a' <= c <= 'f' then c as int - 'a' as int + 10
    else c as int - 'A' as int + 10
  }

  predicate IsRadixDigit(c: char, hex: bool) {
    if hex then IsHexDigit(c) else IsDigit(c)
  }

  /** The length of the leading run of digits in base 10 or 16. */
  function DigitRunLength(s: string, hex: bool): (n: nat)
    ensures n <= |s|
    ensures forall i :: 0 <= i < n ==> IsRadixDigit(s[i], hex)
    ensures n < |s| ==> !IsRadixDigit(s[n], hex)
  {
    if s == [] || !IsRadixDigit(s[0], hex) then 0
    else
      var n := DigitRunLength(s[1..], hex);
      assert forall i :: 1 <= i < n + 1 ==> s[i] == s[1..][i - 1];
      n + 1
  }

  /** The value of a run of digits in base 10 or 16, most significant first. */
  function RadixValue(s: string, hex: bool): nat
    requires forall i :: 0 <= i < |s| ==> IsRadixDigit(s[i], hex)
  {
    if s == [] then 0
    else
      var c := s[|s| - 1];
      assert IsRadixDigit(c, hex);
      var d := if hex then HexDigitValue(c) else c as int - '0' as int;
      assert forall i :: 0 <= i < |s| - 1 ==> s[..|s| - 1][i] == s[i];
      RadixValue(s[..|s| - 1], hex) * (if hex then 16 else 10) + d
  }

  /** The value of the leading run of digits, or `NaN` (None) when there is no digit. */
  function LeadingValue(s: string, hex: bool): (r: Option<nat>)
    ensures r.None? <==> s == [] || !IsRadixDigit(s[0], hex)
  {
    var n := DigitRunLength(s, hex);
    if n == 0 then None else Some(RadixValue(s[..n], hex))
  }

  /** The number after any sign: base 16 after `0x` or `0X`, base 10 otherwise. */
  function ParseUnsigned(u: string): Option<nat>
  {
    if |u| >= 2 && u[0] == '0' && (u[1] == 'x' || u[1] == 'X') then LeadingValue(u[2..], true)
    else LeadingValue(u, false)
  }

  function Negated(v: Option<nat>): (r: Option<int>)
    ensures r.Some? <==> v.Some?
    ensures v.Some? ==> r.value == -(v.value as int)
  {
    if v.Some? then Some(-(v.value as int)) else None
  }

  /** The number after leading white space: an optional `-` or `+`, then `ParseUnsigned`. */
  function ParseSigned(t: string): Option<int>
  {
    if t != [] && t[0] == '-' then Negated(ParseUnsigned(t[1..]))
    else if t != [] && t[0] == '+' then match ParseUnsigned(t[1..]) case Some(v) => Some(v) case None => None
    else match ParseUnsigned(t) case Some(v) => Some(v) case None => None
  }

  /** `parseInt(text)` with no radix: leading white space, an optional sign, an optional
      `0x`/`0X` for base 16, then as many digits as there are; `NaN` (None) when there is none. */
  function ParseIntText(text: string): (r: Option<int>)
  {
    ParseSigned(SkipJsSpace(text))
  }

  /** `parseInt(v)`: a number reads as itself; `undefined`, `null`, booleans and objects,
      whose string forms hold no digits, read as `NaN`. */
  function ParseInt(v: JsValue): (r: Option<int>)
    ensures v.Num? ==> r == Some(v.n)
    ensures v.Undefined? || v.Null? || v.Bool? || v.Obj? ==> r.None?
  {
    match v
    case Num(n) => Some(n)
    case Str(s) => ParseIntText(s)
    case Arr(items) => ParseIntText(KeyText(v))
    case _ => None
  }

  /** `parseInt(a) === parseInt(b)`: `NaN` equals nothing, itself included. */
  predicate SameParsedInt(a: JsValue, b: JsValue)
  {
    ParseInt(a).Some? && ParseInt(b).Some? && ParseInt(a).value == ParseInt(b).value
  }

  lemma {:induction false} DecimalValue(s: string)
    requires AllDigits(s)
    ensures RadixValue(s, false) == DigitsValue(s)
  {
    if s != [] {
      DecimalValue(s[..|s| - 1]);
    }
  }

  /** A run of decimal digits reads as its value. */
  lemma ParseDigitsUnsigned(s: string)
    requires AllDigits(s) && s != []
    ensures ParseUnsigned(s) == Some(DigitsValue(s))
  {
    assert !(|s| >= 2 && (s[1] == 'x' || s[1] == 'X'));
    var n := DigitRunLength(s, false);
    assert n == |s|;
    assert s[..n] == s;
    DecimalValue(s);
  }

  /** A run of decimal digits parses to its value. */
  lemma ParseDigits(s: string)
    requires AllDigits(s) && s != []
    ensures ParseIntText(s) == Some(DigitsValue(s))
  {
    assert ParseUnsigned(s) == Some(DigitsValue(s)) by {
      ParseDigitsUnsigned(s);
    }
    assert SkipJsSpace(s) == s by {
      SkipNoSpace(s);
    }
    assert s[0] != '-' && s[0] != '+';
  }

  /** A minus sign and a run of decimal digits parse to the negated value. */
  lemma ParseNegativeDigits(s: string)
    requires AllDigits(s) && s != []
    ensures ParseIntText("-" + s) == Some(-(DigitsValue(s) as int))
  {
    var m := "-" + s;
    assert ParseUnsigned(m[1..]) == Some(DigitsValue(s)) by {
      assert m[1..] == s;
      ParseDigitsUnsigned(s);
    }
    assert SkipJsSpace(m) == m by {
      SkipNoSpace(m);
    }
    assert m[0] == '-';
  }

  lemma SkipNoSpace(t: string)
    requires t != [] && (t[0] == '-' || IsDigit(t[0]))
    ensures SkipJsSpace(t) == t
  {
  }

  /** `parseInt` reads back the decimal text of any integer: ids that travel as text
      compare equal to the same ids as numbers. */
  lemma ParseIntOfIntToString(i: int)
    ensures ParseIntText(IntToString(i)) == Some(i)
  {
    if i < 0 {
      var s := NatToString(-i);
      assert DigitsValue(s) == -i by {
        DigitsValueOfNatToString(-i);
      }
      assert ParseIntText("-" + s) == Some(i) by {
        ParseNegativeDigits(s);
      }
    } else {
      var s := NatToString(i);
      assert DigitsValue(s) == i by {
        DigitsValueOfNatToString(i);
      }
      assert ParseIntText(s) == Some(i) by {
        ParseDigits(s);
      }
    }
  }

  // ---------------------------------------------------------------- property keys

  /** The string a value turns into when used as an object key (`result[v]`). Integers print
      as decimals. */
  function KeyText(v: JsValue): string
    decreases v, 1
  {
    match v
    case Undefined => "undefined"
    case Null => "null"
    case Bool(b) => if b then "true" else "false"
    case Num(n) => IntToString(n)
    case Str(s) => s
    case Arr(items) =>
      assert forall i :: 0 <= i < |items| ==> items[i] < v;
      JoinItems(v, items)
    case Obj(_) => "[object Object]"
  }

  /** `Array.prototype.join(",")`, where `null` and `undefined` elements print as empty. */
  function JoinItems(parent: JsValue, items: seq<JsValue>): string
    requires forall i :: 0 <= i < |items| ==> items[i] < parent
    decreases parent, 0, |items|
  {
    if items == [] then ""
    else
      var last := items[|items| - 1];
      var head := JoinItems(parent, items[..|items| - 1]);
      (if |items| > 1 then head + "," else head) + (if Nullish(last) then "" else KeyText(last))
  }

  /** The number `n` and the string of its digits name the same object key. */
  lemma NumberKeyIsItsText(n: int)
    ensures KeyText(Num(n)) == KeyText(Str(IntToString(n)))
    ensures ParseInt(Str(KeyText(Num(n)))) == Some(n)
  {
    ParseIntOfIntToString(n);
  }
}
