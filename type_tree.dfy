/** The abstract type tree (AbstractTypeTree): a union of nodes, each a
    primitive keyword, an array of a tree, an object whose fields map names
    to a tree and a required flag, a tuple of trees, or a literal. */
module TypeTree {
  import opened Wrappers

  datatype Primitive = Never | String | Number | BigInt | Boolean | Symbol | Undefined | Object | Any | Null

  /** The keyword a primitive is written as. */
  function Keyword(p: Primitive): string {
    match p
    case Never => "never"
    case String => "string"
    case Number => "number"
    case BigInt => "bigint"
    case Boolean => "boolean"
    case Symbol => "symbol"
    case Undefined => "undefined"
    case Object => "object"
    case Any => "any"
    case Null => "null"
  }

  /** The primitive a token names, if it is one of the ten keywords. */
  function FromKeyword(t: string): (r: Option<Primitive>)
    ensures r.Some? ==> Keyword(r.value) == t
  {
    if t == "never" then Some(Never)
    else if t == "string" then Some(String)
    else if t == "number" then Some(Number)
    else if t == "bigint" then Some(BigInt)
    else if t == "boolean" then Some(Boolean)
    else if t == "symbol" then Some(Symbol)
    else if t == "undefined" then Some(Undefined)
    else if t == "object" then Some(Object)
    else if t == "any" then Some(Any)
    else if t == "null" then Some(Null)
    else None
  }

  /** Every keyword is read back as its primitive, so no two primitives
      share a keyword. */
  lemma KeywordRoundTrip(p: Primitive)
    ensures FromKeyword(Keyword(p)) == Some(p)
  {
  }

  /** The value of an enumeration node: a string, a number or a boolean. */
  datatype Literal = StringLiteral(s: string) | NumberLiteral(n: real) | BooleanLiteral(b: bool)

  datatype Node =
    | PrimitiveAT(kind: Primitive)
    | ArrayAT(element: seq<Node>)
    | ObjectAT(fields: seq<Field>)
    | TupleAT(slots: seq<Slot>)
    | EnumerationAT(literal: Literal)

  /** One position of a tuple node: the union allowed there. */
  datatype Slot = Slot(tree: seq<Node>)

  /** One entry of an object node's Map, in insertion order. */
  datatype Field = Field(name: string, tree: seq<Node>, isRequired: bool)

  function Names(fields: seq<Field>): (r: seq<string>)
    ensures |r| == |fields| && forall j | 0 <= j < |fields| :: r[j] == fields[j].name
  {
    if fields == [] then [] else Names(fields[..|fields| - 1]) + [fields[|fields| - 1].name]
  }

  predicate DistinctNames(fields: seq<Field>) {
    forall j, k | 0 <= j < k < |fields| :: fields[j].name != fields[k].name
  }

  /** The position of the field with a name, or -1 (the Map's `get`). */
  function FindField(fields: seq<Field>, name: string): (r: int)
    ensures -1 <= r < |fields|
    ensures r >= 0 ==> fields[r].name == name
    ensures r == -1 ==> forall j | 0 <= j < |fields| :: fields[j].name != name
  {
    if fields == [] then -1
    else if fields[|fields| - 1].name == name then |fields| - 1
    else FindField(fields[..|fields| - 1], name)
  }

  /** `Map.prototype.set`: a new name is appended, an existing one keeps its
      position and has its entry replaced. */
  function SetField(fields: seq<Field>, f: Field): (r: seq<Field>)
    ensures FindField(fields, f.name) >= 0 ==> r == fields[FindField(fields, f.name) := f]
    ensures FindField(fields, f.name) == -1 ==> r == fields + [f]
  {
    var j := FindField(fields, f.name);
    if j >= 0 then fields[j := f] else fields + [f]
  }

  /** The Map keeps one entry per name: setting a field keeps the names
      distinct, the set field is found under its name, and every other
      name finds the entry it found before. */
  lemma SetFieldKeepsMap(fields: seq<Field>, f: Field, other: string)
    requires DistinctNames(fields)
    ensures DistinctNames(SetField(fields, f))
    ensures var r := SetField(fields, f); var j := FindField(r, f.name); j >= 0 && r[j] == f
    ensures other != f.name ==> var r := SetField(fields, f); var j := FindField(fields, other);
      (j == -1 <==> FindField(r, other) == -1) && (j >= 0 ==> r[FindField(r, other)] == fields[j])
    ensures |fields| <= |SetField(fields, f)| <= |fields| + 1
  {
    var r := SetField(fields, f);
    var at := if FindField(fields, f.name) >= 0 then FindField(fields, f.name) else |fields|;
    assert at < |r| && r[at] == f;
    assert forall j | 0 <= j < |r| && j != at :: r[j] == fields[j];
    assert DistinctNames(r);
    assert FindField(r, f.name) == at;
    if other != f.name {
      var j := FindField(fields, other);
      var j' := FindField(r, other);
      if j >= 0 {
        assert r[j] == fields[j];
        assert j' >= 0;
        assert r[j'] == fields[j'];
      }
    }
  }
}
