/**
 * A JavaScript object used as an attribute map: string keys kept in insertion order
 * (the order `Object.keys` reports), each bound to a string, `null` or `true`.
 */
module Attributes {
  import opened Wrappers
  import JsString

  /** An attribute value: a quoted string, `null` (bare name, newer parser) or `true` (bare name, older parser). */
  datatype Value = Str(s: string) | Null | True

  /** `${value}` in a template literal. */
  function Render(v: Value): string {
    match v
    case Str(s) => s
    case Null => "null"
    case True => "true"
  }

  type Attrs = seq<(string, Value)>

  function Keys(a: Attrs): (r: seq<string>)
    ensures |r| == |a|
    ensures forall k :: 0 <= k < |a| ==> r[k] == a[k].0
  {
    seq(|a|, k requires 0 <= k < |a| => a[k].0)
  }

  predicate DistinctKeys(a: Attrs) {
    forall i, j :: 0 <= i < j < |a| ==> a[i].0 != a[j].0
  }

  /** `attrs.hasOwnProperty(name)`. */
  predicate Has(a: Attrs, name: string) {
    name in Keys(a)
  }

  /** The position of `name` among the keys, or -1. */
  function KeyIndex(a: Attrs, name: string): (r: int)
    ensures r == -1 <==> !Has(a, name)
    ensures r >= 0 ==> r < |a| && a[r].0 == name && forall k :: 0 <= k < r ==> a[k].0 != name
  {
    if a == [] then -1
    else if a[0].0 == name then 0
    else
      var r := KeyIndex(a[1..], name);
      assert Keys(a) == [a[0].0] + Keys(a[1..]);
      if r < 0 then -1 else r + 1
  }

  /** `attrs[name]`, with `None` for `undefined`. */
  function Get(a: Attrs, name: string): (r: Option<Value>)
    ensures r.None? <==> !Has(a, name)
  {
    var k := KeyIndex(a, name);
    if k < 0 then None else Some(a[k].1)
  }

  /** A value `Get` finds is bound to the name in the map. */
  lemma GetFound(a: Attrs, name: string)
    ensures Get(a, name).Some? ==> (name, Get(a, name).value) in a
  {
    var k := KeyIndex(a, name);
    if k >= 0 {
      assert a[k] == (name, Get(a, name).value);
    }
  }

  /** With distinct keys, `Get` returns the value at the name's one position. */
  lemma GetDistinct(a: Attrs, name: string, k: nat)
    requires DistinctKeys(a) && k < |a| && a[k].0 == name
    ensures Get(a, name) == Some(a[k].1)
  {
  }

  /** `attrs[name] = v`: an existing key keeps its place, a new key goes last. */
  function Put(a: Attrs, name: string, v: Value): (r: Attrs)
    ensures Has(a, name) ==> Keys(r) == Keys(a)
    ensures !Has(a, name) ==> Keys(r) == Keys(a) + [name]
    ensures Get(r, name) == Some(v)
    ensures forall other :: other != name ==> Get(r, other) == Get(a, other)
    ensures DistinctKeys(a) ==> DistinctKeys(r)
    ensures forall e :: e in r ==> e in a || e == (name, v)
  {
    var k := KeyIndex(a, name);
    if k < 0 then
      var r := a + [(name, v)];
      assert forall other :: other != name ==> KeyIndex(r, other) == KeyIndex(a, other) by {
        forall other | other != name ensures KeyIndex(r, other) == KeyIndex(a, other) {
          KeyIndexAppend(a, (name, v), other);
        }
      }
      r
    else
      var r := a[k := (name, v)];
      assert Keys(r) == Keys(a);
      assert forall other :: other != name ==> KeyIndex(r, other) == KeyIndex(a, other) by {
        forall other | other != name ensures KeyIndex(r, other) == KeyIndex(a, other) {
          KeyIndexUpdate(a, k, (name, v), other);
        }
      }
      r
  }

  lemma {:induction false} KeyIndexAppend(a: Attrs, p: (string, Value), other: string)
    requires other != p.0
    ensures KeyIndex(a + [p], other) == KeyIndex(a, other)
  {
    if a != [] {
      assert (a + [p])[1..] == a[1..] + [p];
      KeyIndexAppend(a[1..], p, other);
    }
  }

  lemma {:induction false} KeyIndexUpdate(a: Attrs, k: nat, p: (string, Value), other: string)
    requires k < |a| && a[k].0 == p.0 && other != p.0
    ensures KeyIndex(a[k := p], other) == KeyIndex(a, other)
  {
    if k > 0 {
      assert a[k := p][1..] == a[1..][k - 1 := p];
      KeyIndexUpdate(a[1..], k - 1, p, other);
    }
  }

  // ---------------------------------------------------------------------------------------------
  // The `class` attribute as the class queries read it

  /** `getElementsByClassName` on an element whose `class` is `true`: `true.split` is not a function. */
  datatype QueryError = NotAString

  /**
   * The class tokens of a `class` attribute as the query sees them: a falsy value (missing, `null`
   * or empty) is skipped, a string is split on single spaces.
   */
  function ClassTokens(v: Option<Value>): (r: Result<seq<string>, QueryError>)
    ensures r.Failure? <==> v == Some(True)
    ensures r.Success? && r.value != [] ==> v.Some? && v.value.Str? && r.value == JsString.Split(v.value.s, ' ')
    ensures v.Some? && v.value.Str? && v.value.s != [] ==> r == Success(JsString.Split(v.value.s, ' '))
    ensures v == None || v == Some(Null) || v == Some(Str([])) ==> r == Success([])
  {
    match v
    case None => Success([])
    case Some(Null) => Success([])
    case Some(True) => Failure(NotAString)
    case Some(Str(s)) => if s == [] then Success([]) else Success(JsString.Split(s, ' '))
  }

  /** One push of `e` for every token equal to `className`. */
  function Hits<T(==)>(e: T, tokens: seq<string>, className: string): (r: seq<T>)
    ensures forall x :: x in r ==> x == e
    ensures r != [] <==> className in tokens
  {
    if tokens == [] then []
    else (if tokens[0] == className then [e] else []) + Hits(e, tokens[1..], className)
  }

  /** `list` in front of a query's result; a thrown error stays thrown. */
  function Prepend<T, E>(list: seq<T>, r: Result<seq<T>, E>): Result<seq<T>, E> {
    match r
    case Failure(err) => Failure(err)
    case Success(rest) => Success(list + rest)
  }

  lemma PrependEmpty<T, E>(r: Result<seq<T>, E>)
    ensures Prepend([], r) == r
  {
    if r.Success? {
      assert [] + r.value == r.value;
    }
  }

  lemma PrependAppend<T, E>(a: seq<T>, b: seq<T>, r: Result<seq<T>, E>)
    ensures Prepend(a, Prepend(b, r)) == Prepend(a + b, r)
  {
    if r.Success? {
      assert (a + b) + r.value == a + (b + r.value);
    }
  }

  /** The inner loop of `getElementsByClassName`: one push per matching token. */
  method PushHits<T(==)>(list: seq<T>, e: T, classes: seq<string>, className: string) returns (list': seq<T>)
    ensures list' == list + Hits(e, classes, className)
  {
    list' := list;
    for j := 0 to |classes|
      invariant list' + Hits(e, classes[j..], className) == list + Hits(e, classes, className)
    {
      assert classes[j..][0] == classes[j] && classes[j..][1..] == classes[j + 1..];
      var hit := if className == classes[j] then [e] else [];
      assert (list' + hit) + Hits(e, classes[j + 1..], className) == list' + (hit + Hits(e, classes[j + 1..], className));
      list' := list' + hit;
    }
    assert classes[|classes|..] == [];
  }
}
