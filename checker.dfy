/** The structural value checker: `typeChecker` accepts a value when some
    node of the union accepts it. `structural` is `isStructuralTyping`:
    when it is false (exact mode) an object may not have own keys the node
    does not declare. */
module Checker {
  import opened Wrappers
  import opened Chars
  import opened Values
  import opened TypeTree

  /** checkPrimitiveAT: `any` accepts everything, `never` nothing, `object`
      what is `instanceof Object`, the others their own kind of value. */
  predicate CheckPrimitive(v: Value, p: Primitive) {
    match p
    case Any => true
    case Never => false
    case Object => IsInstanceOfObject(v)
    case Number => v.JsNumber?
    case String => v.JsString?
    case Boolean => v.JsBoolean?
    case Undefined => v.JsUndefined?
    case Null => v.JsNull?
    case Symbol => v.JsSymbol?
    case BigInt => v.JsBigInt?
  }

  /** checkEnumerationAT: strict equality with the literal. */
  predicate CheckEnumeration(v: Value, lit: Literal) {
    match lit
    case StringLiteral(s) => v == JsString(s)
    case NumberLiteral(n) => v == JsNumber(n)
    case BooleanLiteral(b) => v == JsBoolean(b)
  }

  /** The names of the fields, as a set. */
  function NameSet(fields: seq<Field>): (r: set<string>)
    ensures forall k | 0 <= k < |fields| :: fields[k].name in r
    ensures forall n | n in r :: exists k | 0 <= k < |fields| :: fields[k].name == n
  {
    set k | 0 <= k < |fields| :: fields[k].name
  }

  /** Every required field is among the own keys. */
  predicate RequiredPresent(fields: seq<Field>, keys: set<string>) {
    forall k | 0 <= k < |fields| :: fields[k].isRequired ==> fields[k].name in keys
  }

  /** typeChecker: the nodes tried in order, the first that accepts wins. */
  predicate TypeCheck(v: Value, att: seq<Node>, structural: bool)
    decreases att, 0
  {
    |att| > 0 && (CheckNode(v, att[0], structural) || TypeCheck(v, att[1..], structural))
  }

  predicate CheckNode(v: Value, n: Node, structural: bool)
    decreases n, 0
  {
    match n
    case PrimitiveAT(p) => CheckPrimitive(v, p)
    case ArrayAT(element) => v.JsArray? && CheckItems(v.items, element, structural)
    case ObjectAT(fields) => CheckObject(v, fields, structural)
    case TupleAT(slots) => v.JsArray? && |v.items| == |slots| && CheckSlots(v.items, slots, structural)
    case EnumerationAT(lit) => CheckEnumeration(v, lit)
  }

  /** checkArrayAT's loop: every item matches the element tree. */
  predicate CheckItems(items: seq<Value>, element: seq<Node>, structural: bool)
    decreases element, |items|
  {
    |items| == 0 || (TypeCheck(items[0], element, structural) && CheckItems(items[1..], element, structural))
  }

  /** checkTupleAT's loop: the item at each position matches that slot. */
  predicate CheckSlots(items: seq<Value>, slots: seq<Slot>, structural: bool)
    requires |items| == |slots|
    decreases slots, 0
  {
    |slots| == 0 || (TypeCheck(items[0], slots[0].tree, structural) && CheckSlots(items[1..], slots[1..], structural))
  }

  /** checkObjectAT: an object (or array) whose own keys include every
      required field and, in exact mode, no key that is not a field, and
      whose own properties match their fields' trees. */
  predicate CheckObject(v: Value, fields: seq<Field>, structural: bool)
    decreases fields, 1
  {
    && IsInstanceOfObject(v)
    && RequiredPresent(fields, OwnKeys(v))
    && (structural || OwnKeys(v) <= NameSet(fields))
    && CheckFields(v, fields, structural)
  }

  /** The last loop of checkObjectAT: each field the value has as an own
      property matches that property; absent fields are skipped. */
  predicate CheckFields(v: Value, fields: seq<Field>, structural: bool)
    requires IsInstanceOfObject(v)
    decreases fields, 0
  {
    |fields| == 0 ||
    ((HasOwn(v, fields[0].name) ==> TypeCheck(Get(v, fields[0].name), fields[0].tree, structural))
     && CheckFields(v, fields[1..], structural))
  }

  // ---------------------------------------------------------------------
  // What the recursive definitions mean.

  /** typeChecker is true exactly when some alternative matches. */
  lemma {:induction false} TypeCheckMeans(v: Value, att: seq<Node>, structural: bool)
    ensures TypeCheck(v, att, structural) <==> exists k | 0 <= k < |att| :: CheckNode(v, att[k], structural)
    decreases |att|
  {
    if |att| > 0 {
      TypeCheckMeans(v, att[1..], structural);
      if exists k | 0 <= k < |att| :: CheckNode(v, att[k], structural) {
        var k :| 0 <= k < |att| && CheckNode(v, att[k], structural);
        if k > 0 {
          assert att[1..][k - 1] == att[k];
        }
      }
      if exists k | 0 <= k < |att[1..]| :: CheckNode(v, att[1..][k], structural) {
        var k :| 0 <= k < |att[1..]| && CheckNode(v, att[1..][k], structural);
        assert att[k + 1] == att[1..][k];
      }
    }
  }

  lemma {:induction false} CheckItemsMeans(items: seq<Value>, element: seq<Node>, structural: bool)
    ensures CheckItems(items, element, structural) <==> forall i | 0 <= i < |items| :: TypeCheck(items[i], element, structural)
    decreases |items|
  {
    if |items| > 0 {
      CheckItemsMeans(items[1..], element, structural);
      assert forall i | 1 <= i < |items| :: items[1..][i - 1] == items[i];
    }
  }

  lemma {:induction false} CheckSlotsMeans(items: seq<Value>, slots: seq<Slot>, structural: bool)
    requires |items| == |slots|
    ensures CheckSlots(items, slots, structural) <==>
      forall i | 0 <= i < |items| :: TypeCheck(items[i], slots[i].tree, structural)
    decreases |items|
  {
    if |items| > 0 {
      CheckSlotsMeans(items[1..], slots[1..], structural);
      assert forall i | 1 <= i < |items| :: items[1..][i - 1] == items[i] && slots[1..][i - 1] == slots[i];
    }
  }

  lemma {:induction false} CheckFieldsMeans(v: Value, fields: seq<Field>, structural: bool)
    requires IsInstanceOfObject(v)
    ensures CheckFields(v, fields, structural) <==>
      forall k | 0 <= k < |fields| && HasOwn(v, fields[k].name) :: TypeCheck(Get(v, fields[k].name), fields[k].tree, structural)
    decreases |fields|
  {
    if |fields| > 0 {
      CheckFieldsMeans(v, fields[1..], structural);
      assert forall k | 1 <= k < |fields| :: fields[1..][k - 1] == fields[k];
    }
  }

  /** An array node accepts exactly the arrays whose every item matches. */
  lemma ArrayMeans(v: Value, element: seq<Node>, structural: bool)
    ensures CheckNode(v, ArrayAT(element), structural) <==>
      v.JsArray? && forall i | 0 <= i < |v.items| :: TypeCheck(v.items[i], element, structural)
  {
    if v.JsArray? {
      CheckItemsMeans(v.items, element, structural);
    }
  }

  /** A tuple node accepts exactly the arrays of its length whose item at
      each position matches that position's slot. */
  lemma TupleMeans(v: Value, slots: seq<Slot>, structural: bool)
    ensures CheckNode(v, TupleAT(slots), structural) <==>
      && v.JsArray? && |v.items| == |slots|
      && forall i | 0 <= i < |slots| :: TypeCheck(v.items[i], slots[i].tree, structural)
  {
    if v.JsArray? && |v.items| == |slots| {
      CheckSlotsMeans(v.items, slots, structural);
    }
  }

  /** An object node accepts exactly the arrays and objects that have every
      required field, in exact mode have nothing but declared fields, and
      whose present fields match. */
  lemma ObjectMeans(v: Value, fields: seq<Field>, structural: bool)
    ensures CheckNode(v, ObjectAT(fields), structural) <==>
      && IsInstanceOfObject(v)
      && (forall k | 0 <= k < |fields| && fields[k].isRequired :: fields[k].name in OwnKeys(v))
      && (!structural ==> forall key | key in OwnKeys(v) :: exists k | 0 <= k < |fields| :: fields[k].name == key)
      && (forall k | 0 <= k < |fields| && HasOwn(v, fields[k].name) ::
            TypeCheck(Get(v, fields[k].name), fields[k].tree, structural))
  {
    if IsInstanceOfObject(v) {
      CheckFieldsMeans(v, fields, structural);
    }
  }

  // ---------------------------------------------------------------------
  // Exact mode is stronger than structural mode.

  lemma {:induction false} ExactImpliesStructural(v: Value, att: seq<Node>)
    ensures TypeCheck(v, att, false) ==> TypeCheck(v, att, true)
    decreases att, 0
  {
    if |att| > 0 {
      ExactNodeImpliesStructural(v, att[0]);
      ExactImpliesStructural(v, att[1..]);
    }
  }

  lemma {:induction false} ExactNodeImpliesStructural(v: Value, n: Node)
    ensures CheckNode(v, n, false) ==> CheckNode(v, n, true)
    decreases n, 0
  {
    match n
    case PrimitiveAT(_) =>
    case EnumerationAT(_) =>
    case ArrayAT(element) =>
      if v.JsArray? {
        ExactItemsImplyStructural(v.items, element);
      }
    case ObjectAT(fields) =>
      assert CheckNode(v, n, false) == CheckObject(v, fields, false);
      assert CheckNode(v, n, true) == CheckObject(v, fields, true);
      if IsInstanceOfObject(v) {
        ExactFieldsImplyStructural(v, fields);
      }
    case TupleAT(slots) =>
      if v.JsArray? && |v.items| == |slots| {
        ExactSlotsImplyStructural(v.items, slots);
      }
  }

  lemma {:induction false} ExactItemsImplyStructural(items: seq<Value>, element: seq<Node>)
    ensures CheckItems(items, element, false) ==> CheckItems(items, element, true)
    decreases element, |items|
  {
    if |items| > 0 {
      ExactImpliesStructural(items[0], element);
      ExactItemsImplyStructural(items[1..], element);
    }
  }

  lemma {:induction false} ExactSlotsImplyStructural(items: seq<Value>, slots: seq<Slot>)
    requires |items| == |slots|
    ensures CheckSlots(items, slots, false) ==> CheckSlots(items, slots, true)
    decreases slots, 0
  {
    if |slots| > 0 {
      ExactImpliesStructural(items[0], slots[0].tree);
      ExactSlotsImplyStructural(items[1..], slots[1..]);
    }
  }

  lemma {:induction false} ExactFieldsImplyStructural(v: Value, fields: seq<Field>)
    requires IsInstanceOfObject(v)
    ensures CheckFields(v, fields, false) ==> CheckFields(v, fields, true)
    decreases fields, 0
  {
    if |fields| > 0 {
      if HasOwn(v, fields[0].name) {
        ExactImpliesStructural(Get(v, fields[0].name), fields[0].tree);
      }
      ExactFieldsImplyStructural(v, fields[1..]);
    }
  }

  /** The two modes differ: `{ a: number; }` accepts `{a: 1, b: 1}` only
      structurally. */
  lemma ExactIsStricter()
    ensures var att := [ObjectAT([Field("a", [PrimitiveAT(Number)], true)])];
      var v := JsObject(map["a" := JsNumber(1.0), "b" := JsNumber(1.0)]);
      TypeCheck(v, att, true) && !TypeCheck(v, att, false)
  {
    var fields := [Field("a", [PrimitiveAT(Number)], true)];
    var v := JsObject(map["a" := JsNumber(1.0), "b" := JsNumber(1.0)]);
    assert "b" in OwnKeys(v) && "b" !in NameSet(fields);
    assert Get(v, "a") == JsNumber(1.0);
  }

  /** `{ a: number; b?: string; }` accepts `{a: 1}` and `{a: 1, b: '1'}`
      in both modes, and rejects `{a: 1, b: 1}`: an optional field may be
      missing but, when present, must match. */
  lemma OptionalFieldExamples(structural: bool)
    ensures var att := [ObjectAT([Field("a", [PrimitiveAT(Number)], true), Field("b", [PrimitiveAT(String)], false)])];
      && TypeCheck(JsObject(map["a" := JsNumber(1.0)]), att, structural)
      && TypeCheck(JsObject(map["a" := JsNumber(1.0), "b" := JsString("1")]), att, structural)
      && !TypeCheck(JsObject(map["a" := JsNumber(1.0), "b" := JsNumber(1.0)]), att, structural)
  {
    var fields := [Field("a", [PrimitiveAT(Number)], true), Field("b", [PrimitiveAT(String)], false)];
    assert "a" in NameSet(fields) && "b" in NameSet(fields) by {
      assert fields[0].name == "a" && fields[1].name == "b";
    }
    var v1 := JsObject(map["a" := JsNumber(1.0)]);
    assert !HasOwn(v1, "b") && Get(v1, "a") == JsNumber(1.0);
    assert CheckFields(v1, fields[1..], structural);
    var v2 := JsObject(map["a" := JsNumber(1.0), "b" := JsString("1")]);
    assert Get(v2, "a") == JsNumber(1.0) && Get(v2, "b") == JsString("1");
    assert CheckFields(v2, fields[1..], structural);
    var v3 := JsObject(map["a" := JsNumber(1.0), "b" := JsNumber(1.0)]);
    assert HasOwn(v3, "b") && Get(v3, "b") == JsNumber(1.0);
    assert !CheckFields(v3, fields[1..], structural);
  }

  /** `1 | '2'` accepts the number 1 and not the number 2; `false` accepts
      false and not true. */
  lemma EnumerationExamples(structural: bool)
    ensures var att := [EnumerationAT(NumberLiteral(1.0)), EnumerationAT(StringLiteral("2"))];
      TypeCheck(JsNumber(1.0), att, structural) && !TypeCheck(JsNumber(2.0), att, structural)
    ensures var att := [EnumerationAT(BooleanLiteral(false))];
      TypeCheck(JsBoolean(false), att, structural) && !TypeCheck(JsBoolean(true), att, structural)
  {
    var att := [EnumerationAT(NumberLiteral(1.0)), EnumerationAT(StringLiteral("2"))];
    TypeCheckMeans(JsNumber(2.0), att, structural);
  }

  // ---------------------------------------------------------------------
  // The checking loops: typeChecker, checkArrayAT, checkTupleAT and
  // checkObjectAT, each proved to compute the predicate above.

  /** typeChecker: the nodes of the union tried in order; the first that
      accepts the value ends the loop with true. */
  method TypeChecker(v: Value, att: seq<Node>, structural: bool) returns (r: bool)
    ensures r == TypeCheck(v, att, structural)
    decreases att, 0
  {
    TypeCheckMeans(v, att, structural);
    var k := 0;
    while k < |att|
      invariant 0 <= k <= |att|
      invariant forall j | 0 <= j < k :: !CheckNode(v, att[j], structural)
      decreases |att| - k
    {
      var node := att[k];
      var accepted: bool;
      match node {
        case PrimitiveAT(p) => accepted := CheckPrimitive(v, p);
        case ArrayAT(element) => accepted := CheckArrayAT(v, element, structural);
        case ObjectAT(fields) => accepted := CheckObjectAT(v, fields, structural);
        case TupleAT(slots) => accepted := CheckTupleAT(v, slots, structural);
        case EnumerationAT(lit) => accepted := CheckEnumeration(v, lit);
      }
      if accepted {
        return true;
      }
      k := k + 1;
    }
    r := false;
  }

  /** checkArrayAT: an array whose every item matches the element tree. */
  method CheckArrayAT(v: Value, element: seq<Node>, structural: bool) returns (r: bool)
    ensures r == CheckNode(v, ArrayAT(element), structural)
    decreases element, 1
  {
    if !v.JsArray? {
      return false;
    }
    CheckItemsMeans(v.items, element, structural);
    var i := 0;
    while i < |v.items|
      invariant 0 <= i <= |v.items|
      invariant forall j | 0 <= j < i :: TypeCheck(v.items[j], element, structural)
      decreases |v.items| - i
    {
      var accepted := TypeChecker(v.items[i], element, structural);
      if !accepted {
        return false;
      }
      i := i + 1;
    }
    r := true;
  }

  /** checkTupleAT: an array as long as the tuple whose item at each
      position matches that position's tree. */
  method CheckTupleAT(v: Value, slots: seq<Slot>, structural: bool) returns (r: bool)
    ensures r == CheckNode(v, TupleAT(slots), structural)
    decreases slots, 1
  {
    if !v.JsArray? {
      return false;
    }
    var length := |slots|;
    if |v.items| != length {
      return false;
    }
    CheckSlotsMeans(v.items, slots, structural);
    var i := 0;
    while i < length
      invariant 0 <= i <= length
      invariant forall j | 0 <= j < i :: TypeCheck(v.items[j], slots[j].tree, structural)
      decreases length - i
    {
      var accepted := TypeChecker(v.items[i], slots[i].tree, structural);
      if !accepted {
        return false;
      }
      i := i + 1;
    }
    r := true;
  }

  /** checkObjectAT: a Map from every own key to whether a field has been
      seen for it; in exact mode an unvisited key fails. */
  method CheckObjectAT(v: Value, fields: seq<Field>, structural: bool) returns (r: bool)
    ensures r == CheckObject(v, fields, structural)
    decreases fields, 2
  {
    if !IsInstanceOfObject(v) {
      return false;
    }
    var path: map<string, bool> := map key | key in OwnKeys(v) :: false;
    if structural {
      var present := RequiredLoop(fields, path);
      if !present {
        return false;
      }
    } else {
      var present, marked := MarkLoop(fields, path);
      if !present {
        return false;
      }
      if exists key | key in marked :: !marked[key] {
        return false;
      }
    }
    r := CheckPropertiesLoop(v, fields, structural);
  }

  /** The structural-mode loop of checkObjectAT: every required field is a key. */
  method RequiredLoop(fields: seq<Field>, path: map<string, bool>) returns (r: bool)
    ensures r == RequiredPresent(fields, path.Keys)
  {
    var k := 0;
    while k < |fields|
      invariant 0 <= k <= |fields|
      invariant RequiredPresent(fields[..k], path.Keys)
      decreases |fields| - k
    {
      if fields[k].isRequired && fields[k].name !in path {
        return false;
      }
      assert fields[..k + 1] == fields[..k] + [fields[k]];
      k := k + 1;
    }
    assert fields[..k] == fields;
    r := true;
  }

  /** The exact-mode loop of checkObjectAT: every required field is a key,
      and each key a field names is marked as visited. */
  method MarkLoop(fields: seq<Field>, path: map<string, bool>) returns (r: bool, marked: map<string, bool>)
    requires forall key | key in path :: !path[key]
    ensures r == RequiredPresent(fields, path.Keys)
    ensures r ==> marked.Keys == path.Keys && forall key | key in marked :: marked[key] <==> key in NameSet(fields)
  {
    marked := path;
    var k := 0;
    while k < |fields|
      invariant 0 <= k <= |fields|
      invariant marked.Keys == path.Keys
      invariant RequiredPresent(fields[..k], path.Keys)
      invariant forall key | key in marked :: marked[key] <==> key in NameSet(fields[..k])
      decreases |fields| - k
    {
      var isExist := fields[k].name in marked;
      if fields[k].isRequired && !isExist {
        return false, marked;
      }
      assert fields[..k + 1] == fields[..k] + [fields[k]];
      assert NameSet(fields[..k + 1]) == NameSet(fields[..k]) + {fields[k].name};
      if isExist {
        marked := marked[fields[k].name := true];
      }
      k := k + 1;
    }
    assert fields[..k] == fields;
    r := true;
  }

  /** The last loop of checkObjectAT. */
  method CheckPropertiesLoop(v: Value, fields: seq<Field>, structural: bool) returns (r: bool)
    requires IsInstanceOfObject(v)
    ensures r == CheckFields(v, fields, structural)
    decreases fields, 1
  {
    CheckFieldsMeans(v, fields, structural);
    var k := 0;
    while k < |fields|
      invariant 0 <= k <= |fields|
      invariant forall j | 0 <= j < k && HasOwn(v, fields[j].name) :: TypeCheck(Get(v, fields[j].name), fields[j].tree, structural)
      decreases |fields| - k
    {
      if HasOwn(v, fields[k].name) {
        var accepted := TypeChecker(Get(v, fields[k].name), fields[k].tree, structural);
        if !accepted {
          return false;
        }
      }
      k := k + 1;
    }
    r := true;
  }
}
