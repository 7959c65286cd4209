/** What the parser makes of a few kinds of text: parentheses are
    flattened away, a configured keyword is one primitive node and an
    unconfigured one is rejected, `T[]` wraps the element's tree, `{}` is
    the empty object and `[]` is no tuple at all. */
module ParserFacts {
  import opened Wrappers
  import opened Chars
  import opened TypeTree
  import opened Classify
  import opened Tokenizer
  import opened TokenizerFacts
  import opened Parser

  /** Parentheses around a non-empty text are dropped: the member stands
      for the union inside it, whatever that union is. */
  lemma ParenthesesFlattened(p: string, opt: Options)
    requires p != ""
    ensures ParseMember("(" + p + ")", opt) == ParseFormat(p, opt)
  {
    var t := "(" + p + ")";
    ShapesOfContent(p);
    assert t[1..|t| - 1] == p;
  }

  /** A text that is its own only member parses as that member. */
  lemma SingleMember(t: string, opt: Options)
    requires SplitAstriction(t, ['|']) == Ok([t])
    ensures ParseFormat(t, opt) == ParseMember(t, opt)
  {
    var members := [t];
    assert members[0] == t && members[1..] == [];
    var first := ParseMember(t, opt);
    if first.Ok? {
      assert ParseMembers(members, |t|, opt) == Ok(first.value + []);
      assert first.value + [] == first.value;
    } else {
      assert ParseMembers(members, |t|, opt) == TypeError;
    }
  }

  /** Lower-case letters are copied by the splitter one by one. */
  predicate LowerCase(s: string) {
    forall k | 0 <= k < |s| :: 'a' <= s[k] <= 'z'
  }

  lemma LowerCaseIsOrdinary(s: string)
    requires LowerCase(s)
    ensures forall k | 0 <= k < |s| :: Ordinary(s[k], ['|'])
  {
    forall k | 0 <= k < |s| ensures Ordinary(s[k], ['|']) {
      var x := s[k];
      assert 'a' <= x <= 'z';
      assert [x] != "Array<";
    }
  }

  /** The only member of a keyword's text is the keyword itself. */
  lemma KeywordSplits(p: Primitive)
    ensures SplitAstriction(Keyword(p), ['|']) == Ok([Keyword(p)])
  {
    KeywordIsWord(p);
    LowerCaseIsOrdinary(Keyword(p));
    SplitsOrdinaryText(Keyword(p), '|');
  }

  /** A keyword as a member: its primitive if allowed, rejected otherwise. */
  lemma KeywordMember(p: Primitive, opt: Options)
    ensures ParseMember(Keyword(p), opt) == if p in opt.primitive then Ok([PrimitiveAT(p)]) else TypeError
  {
    KeywordRoundTrip(p);
    KeywordsAreNotShapes(Keyword(p));
  }

  /** A keyword the options allow is one primitive node of that kind. */
  lemma KeywordParses(p: Primitive, opt: Options)
    requires p in opt.primitive
    ensures ParseFormat(Keyword(p), opt) == Ok([PrimitiveAT(p)])
  {
    KeywordSplits(p);
    SingleMember(Keyword(p), opt);
    KeywordMember(p, opt);
  }

  /** A keyword the options leave out matches no other kind of token, so
      the text is rejected. */
  lemma UnconfiguredKeywordRejected(p: Primitive, opt: Options)
    requires p !in opt.primitive
    ensures ParseFormat(Keyword(p), opt) == TypeError
  {
    KeywordSplits(p);
    SingleMember(Keyword(p), opt);
    KeywordMember(p, opt);
  }

  /** A member `T[]` that is no other token kind is the array of `T`'s tree. */
  lemma LiteralArrayMember(t: string, opt: Options)
    requires IsLiteralArray(t) && !IsParentheses(t) && !IsObjectShape(t)
    requires ParseFormat(t[..|t| - 2], opt).Ok?
    ensures ParseMember(t, opt) == Ok([ArrayAT(ParseFormat(t[..|t| - 2], opt).value)])
  {
    if FromKeyword(t).Some? {
      KeywordsAreNotShapes(t);
    }
  }

  /** `T[]` for an allowed keyword `T` is an array of that primitive. */
  lemma KeywordArrayParses(p: Primitive, opt: Options)
    requires p in opt.primitive
    ensures ParseFormat(Keyword(p) + "[]", opt) == Ok([ArrayAT([PrimitiveAT(p)])])
  {
    var kw := Keyword(p);
    var t := kw + "[]";
    KeywordIsWord(p);
    LowerCaseIsOrdinary(kw);
    SplitsOrdinaryThenPair(kw, '[', ']', 3, '|');
    assert kw + ['[', ']'] == t;
    SingleMember(t, opt);
    assert t[0] == kw[0] && t[..|t| - 2] == kw;
    KeywordParses(p, opt);
    LiteralArrayMember(t, opt);
  }

  /** `{}` is the object with no fields. */
  lemma EmptyObjectParses(t: string, opt: Options)
    requires t == "{}"
    ensures ParseFormat(t, opt) == Ok([ObjectAT([])])
  {
    SplitsOrdinaryThenPair("", '{', '}', 0, '|');
    assert "" + ['{', '}'] == t;
    SingleMember(t, opt);
    assert !IsParentheses(t) && !IsPrimitiveKeyword(t, opt.primitive) && IsObjectShape(t);
  }

  /** `[]` is too short for an array and, as a tuple, has nothing between
      its brackets, which the splitter refuses: the text is rejected. */
  lemma EmptyTupleRejected(t: string, opt: Options)
    requires t == "[]"
    ensures ParseFormat(t, opt) == TypeError
  {
    SplitsOrdinaryThenPair("", '[', ']', 3, '|');
    assert "" + ['[', ']'] == t;
    SingleMember(t, opt);
    RejectsEmptyText(',');
    assert t[1..|t| - 1] == "";
    assert ParseTuple(t, opt) == TypeError;
    assert !IsParentheses(t) && !IsPrimitiveKeyword(t, opt.primitive) && !IsObjectShape(t) && !IsArrayShape(t);
  }

  /** A union of two members is their trees, one after the other. */
  lemma TwoMembers(a: string, b: string, bound: nat, opt: Options)
    requires |a| <= bound && |b| <= bound && ParseMember(a, opt).Ok? && ParseMember(b, opt).Ok?
    ensures ParseMembers([a, b], bound, opt) == Ok(ParseMember(a, opt).value + ParseMember(b, opt).value)
  {
    var members := [a, b];
    assert members[0] == a && members[1..] == [b];
    assert [b][0] == b && [b][1..] == [];
    var tb := ParseMember(b, opt).value;
    assert ParseMembers([b], bound, opt) == Ok(tb + []);
    assert tb + [] == tb;
  }

  /** `number|string` is the union of the two primitives, in that order. */
  lemma UnionParses(t: string, opt: Options)
    requires t == "number|string"
    requires Number in opt.primitive && String in opt.primitive
    ensures ParseFormat(t, opt) == Ok([PrimitiveAT(Number), PrimitiveAT(String)])
  {
    SplitsTwoMembers(t, ['|']);
    KeywordMember(Number, opt);
    KeywordMember(String, opt);
    assert ["number", "string"] == [Keyword(Number), Keyword(String)];
    TwoMembers(Keyword(Number), Keyword(String), |t|, opt);
    assert [PrimitiveAT(Number)] + [PrimitiveAT(String)] == [PrimitiveAT(Number), PrimitiveAT(String)];
  }
}
