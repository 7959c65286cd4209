/** The ready-made options of the library: the full vocabulary of
    primitive keywords, the smaller one of values JSON can hold, the mode
    a value is checked in by default and the default validator of property
    names. */
module Vocabulary {
  import opened Wrappers
  import opened Chars
  import opened TypeTree
  import opened Parser
  import opened ParserFacts

  /** DEFAULT_IS_STRUCTURAL */
  const DefaultStructural: bool := true

  /** DEFAULT_PRIMITIVE: every keyword. */
  const DefaultPrimitive: set<Primitive> :=
    {Any, Never, Object, Number, String, Boolean, Undefined, Null, Symbol, BigInt}

  /** JSON_PRIMITIVE: the keywords of values a JSON text can denote. */
  const JsonPrimitive: set<Primitive> := {Any, Never, Object, Number, String, Boolean, Null}

  /** Every character of a name the default validator accepts is free of
      the constraint syntax. */
  lemma IdentifierHasNoSyntaxAnywhere(v: string)
    ensures IsIdentifier(v) ==>
      forall j | 0 <= j < |v| :: v[j] !in Invisible && v[j] !in ":?,;|{}()[]<>\"'\\"
  {
    if IsIdentifier(v) {
      forall j | 0 <= j < |v| ensures v[j] !in Invisible && v[j] !in ":?,;|{}()[]<>\"'\\" {
        IdentifierHasNoSyntax(v, j);
      }
    }
  }

  /** DEFAULT_CHECK_VARIABLE_NAME: `^[_a-zA-Z$][_a-zA-Z$\d]*$`. A name it
      accepts is not empty, does not start with a digit and holds no
      character the constraint syntax gives a meaning to. */
  function DefaultCheckVariableName(v: string): (r: bool)
    ensures r ==> |v| > 0 && !IsDigit(v[0])
    ensures r ==> forall j | 0 <= j < |v| :: v[j] !in Invisible && v[j] !in ":?,;|{}()[]<>\"'\\"
    ensures r <== |v| > 0 && IsIdentifierStart(v[0]) && forall j | 1 <= j < |v| :: IsIdentifierPart(v[j])
  {
    IdentifierMeans(v);
    IdentifierHasNoSyntaxAnywhere(v);
    IsIdentifier(v)
  }

  /** The options `withCheck` and `checkAstriction` parse with. */
  const DefaultOptions: Options := Options(DefaultPrimitive, DefaultCheckVariableName)

  /** The options `withCheckJSON` and `checkJSONAstriction` parse with. */
  const JsonOptions: Options := Options(JsonPrimitive, DefaultCheckVariableName)

  /** The default vocabulary holds every keyword; the JSON one leaves out
      exactly `undefined`, `symbol` and `bigint`, so those texts parse with
      the default options and are rejected with the JSON ones. */
  lemma JsonVocabulary(p: Primitive)
    ensures p in DefaultPrimitive
    ensures JsonPrimitive <= DefaultPrimitive
    ensures DefaultPrimitive - JsonPrimitive == {Undefined, Symbol, BigInt}
    ensures ParseFormat(Keyword(p), DefaultOptions) == Ok([PrimitiveAT(p)])
    ensures p in {Undefined, Symbol, BigInt} ==> ParseFormat(Keyword(p), JsonOptions) == TypeError
    ensures p !in {Undefined, Symbol, BigInt} ==> ParseFormat(Keyword(p), JsonOptions) == Ok([PrimitiveAT(p)])
  {
    assert p in DefaultPrimitive by {
      match p
      case Any => case Never => case Object => case Number => case String =>
      case Boolean => case Undefined => case Null => case Symbol => case BigInt =>
    }
    assert DefaultPrimitive - JsonPrimitive == {Undefined, Symbol, BigInt};
    KeywordParses(p, DefaultOptions);
    var json := JsonOptions;
    if p in {Undefined, Symbol, BigInt} {
      UnconfiguredKeywordRejected(p, json);
    } else {
      assert p in json.primitive;
      KeywordParses(p, json);
    }
  }
}
