/** The JavaScript values the checker inspects. A number is an exact real
    (no NaN, no infinities, no negative zero), a symbol is told apart by an
    identity, an array is its sequence of items, and any other object is its
    map from own enumerable string keys to values. Functions, boxed
    primitives and other host objects are not represented. */
module Values {
  import opened Chars

  datatype Value =
    | JsUndefined
    | JsNull
    | JsBoolean(b: bool)
    | JsNumber(n: real)
    | JsString(s: string)
    | JsSymbol(id: nat)
    | JsBigInt(i: int)
    | JsArray(items: seq<Value>)
    | JsObject(props: map<string, Value>)

  /** `val instanceof Object`: arrays and objects, not primitives. */
  predicate IsInstanceOfObject(v: Value) {
    v.JsArray? || v.JsObject?
  }

  /** `Object.keys(val)` of an array or object, as a set: the decimal
      spelling of an array's indices, an object's own keys. */
  function OwnKeys(v: Value): set<string>
    requires IsInstanceOfObject(v)
  {
    match v
    case JsArray(items) => set i | 0 <= i < |items| :: NatToString(i)
    case JsObject(props) => props.Keys
  }

  /** `Object.prototype.hasOwnProperty.call(val, k)`: the keys above and,
      for an array, also `length`, which is own but not enumerable. */
  predicate HasOwn(v: Value, k: string)
    requires IsInstanceOfObject(v)
  {
    k in OwnKeys(v) || (v.JsArray? && k == "length")
  }

  /** The array index a key spells, if the key is one of the array's. */
  lemma IndexOfKey(items: seq<Value>, k: string)
    requires k in OwnKeys(JsArray(items))
    ensures AllDigits(k) && DigitsValue(k) < |items| && NatToString(DigitsValue(k)) == k
  {
    var i :| 0 <= i < |items| && k == NatToString(i);
    NatToStringValue(i);
  }

  /** `val[k]` for an own property. */
  function Get(v: Value, k: string): (r: Value)
    requires IsInstanceOfObject(v) && HasOwn(v, k)
    ensures v.JsObject? ==> r == v.props[k]
    ensures v.JsArray? && k == "length" ==> r == JsNumber(|v.items| as real)
    ensures v.JsArray? && k != "length" ==> exists i | 0 <= i < |v.items| :: k == NatToString(i) && r == v.items[i]
  {
    match v
    case JsObject(props) => props[k]
    case JsArray(items) =>
      if k == "length" then JsNumber(|items| as real)
      else
        IndexOfKey(items, k);
        items[DigitsValue(k)]
  }

  /** Reading the key of an index gives the item at that index. */
  lemma GetIndex(items: seq<Value>, i: nat)
    requires i < |items|
    ensures HasOwn(JsArray(items), NatToString(i))
    ensures Get(JsArray(items), NatToString(i)) == items[i]
  {
    var k := NatToString(i);
    assert k in OwnKeys(JsArray(items));
    assert k != "length" by { assert IsDigit(k[0]); }
    NatToStringValue(i);
  }
}
