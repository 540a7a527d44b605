/** The JavaScript values the browser and Express code handles, with JavaScript's notion of truthiness. */
module JsValues {
  datatype Value =
    | Undefined
    | Null
    | Bool(b: bool)
    | Num(n: int)
    | NaN
    | Str(s: string)
    | Arr(items: seq<Value>)
    | Obj(fields: seq<(string, Value)>)

  /** `!!v` in JavaScript: undefined, null, false, 0, NaN and "" are falsy; everything else is truthy. */
  predicate Truthy(v: Value) {
    match v
    case Undefined => false
    case Null => false
    case Bool(b) => b
    case Num(n) => n != 0
    case NaN => false
    case Str(s) => s != ""
    case Arr(_) => true
    case Obj(_) => true
  }

  /** `a || b`: the left operand when it is truthy, the right one otherwise. */
  function Or(a: Value, b: Value): (r: Value)
    ensures Truthy(a) ==> r == a
    ensures !Truthy(a) ==> r == b
  {
    if Truthy(a) then a else b
  }

  /**
   * An object literal: its own enumerable properties in insertion order, the order
   * `Object.keys`, `Object.values` and the spread operator visit string keys in. JavaScript
   * visits integer-like keys ("0", "42") first, in ascending numeric order; this model keeps
   * insertion order for them too. Keys are distinct.
   */
  type Object = seq<(string, Value)>

  function Keys(o: Object): (ks: seq<string>)
    ensures |ks| == |o| && forall i :: 0 <= i < |o| ==> ks[i] == o[i].0
  {
    if o == [] then [] else [o[0].0] + Keys(o[1..])
  }

  function Values(o: Object): (vs: seq<Value>)
    ensures |vs| == |o| && forall i :: 0 <= i < |o| ==> vs[i] == o[i].1
  {
    if o == [] then [] else [o[0].1] + Values(o[1..])
  }

  predicate DistinctKeys(o: Object) {
    forall i, j :: 0 <= i < j < |o| ==> o[i].0 != o[j].0
  }

  predicate Has(o: Object, key: string) {
    key in Keys(o)
  }

  /** Property lookup `o[key]`: undefined when the key is absent. */
  function Get(o: Object, key: string): (v: Value)
    ensures !Has(o, key) ==> v == Undefined
    ensures Has(o, key) ==> (key, v) in o
  {
    if o == [] then Undefined else if o[0].0 == key then o[0].1 else Get(o[1..], key)
  }

  /**
   * The assignment `o[key] = v`: an existing property keeps its position and takes the new
   * value; a new one is added at the end.
   */
  function Put(o: Object, key: string, v: Value): (r: Object)
    ensures Has(o, key) ==> |r| == |o|
    ensures !Has(o, key) ==> r == o + [(key, v)]
  {
    if o == [] then [(key, v)]
    else if o[0].0 == key then [(key, v)] + o[1..]
    else [o[0]] + Put(o[1..], key, v)
  }

  /** `{...a, ...b}`: the properties of a, then those of b assigned one by one in b's order. */
  function Spread(a: Object, b: Object): Object
    decreases |b|
  {
    if b == [] then a else Spread(Put(a, b[0].0, b[0].1), b[1..])
  }

  /** After `o[key] = v`, key reads v and every other key reads as before; the keys grow by key alone. */
  lemma {:induction false} PutGet(o: Object, key: string, v: Value, k: string)
    ensures Get(Put(o, key, v), k) == if k == key then v else Get(o, k)
    ensures Has(Put(o, key, v), k) <==> k == key || Has(o, k)
  {
    if o != [] {
      if o[0].0 != key {
        PutGet(o[1..], key, v, k);
        assert Put(o, key, v) == [o[0]] + Put(o[1..], key, v);
        assert Keys(Put(o, key, v)) == [o[0].0] + Keys(Put(o[1..], key, v));
      } else {
        assert Keys(Put(o, key, v)) == [key] + Keys(o[1..]);
      }
    }
  }

  /** Assignment keeps the keys distinct. */
  lemma {:induction false} PutDistinct(o: Object, key: string, v: Value)
    requires DistinctKeys(o)
    ensures DistinctKeys(Put(o, key, v))
  {
    if o != [] && o[0].0 != key {
      PutDistinct(o[1..], key, v);
      PutGet(o[1..], key, v, o[0].0);
      var r := Put(o, key, v);
      var t := Put(o[1..], key, v);
      assert r == [o[0]] + t;
      DistinctTail(o);
      forall j | 1 <= j < |r|
        ensures r[j].0 != o[0].0
      {
        assert r[j].0 == Keys(t)[j - 1];
      }
    }
  }

  /**
   * In `{...a, ...b}` the properties of b win: a key of b reads b's value, any other key reads
   * a's, and the keys are those of a and b together.
   */
  lemma {:induction false} SpreadGet(a: Object, b: Object, k: string)
    requires DistinctKeys(b)
    ensures Get(Spread(a, b), k) == if Has(b, k) then Get(b, k) else Get(a, k)
    ensures Has(Spread(a, b), k) <==> Has(a, k) || Has(b, k)
    decreases |b|
  {
    if b != [] {
      var a' := Put(a, b[0].0, b[0].1);
      SpreadGet(a', b[1..], k);
      PutGet(a, b[0].0, b[0].1, k);
      DistinctTail(b);
      assert Keys(b) == [b[0].0] + Keys(b[1..]);
    }
  }

  /** The first key of an object with distinct keys does not reappear after it. */
  lemma DistinctTail(o: Object)
    requires o != [] && DistinctKeys(o)
    ensures DistinctKeys(o[1..]) && !Has(o[1..], o[0].0)
  {
  }

  /** Spreading keeps the keys distinct. */
  lemma {:induction false} SpreadDistinct(a: Object, b: Object)
    requires DistinctKeys(a)
    ensures DistinctKeys(Spread(a, b))
    decreases |b|
  {
    if b != [] {
      PutDistinct(a, b[0].0, b[0].1);
      SpreadDistinct(Put(a, b[0].0, b[0].1), b[1..]);
    }
  }
}
