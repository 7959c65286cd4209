/** The token classifiers of the parser (the `is*Astriction` and
    `is*Enumeration` regular expressions). `[\s\S]` matches any character,
    so each pattern fixes only the characters at the ends of the token and
    a minimum length. */
module Classify {
  import opened Wrappers
  import opened Chars
  import opened TypeTree

  /** `^\([\s\S]+\)$` */
  predicate IsParentheses(v: string) {
    |v| >= 3 && v[0] == '(' && v[|v| - 1] == ')'
  }

  /** `primitive.has(v)` */
  predicate IsPrimitiveKeyword(v: string, primitive: set<Primitive>) {
    FromKeyword(v).Some? && FromKeyword(v).value in primitive
  }

  /** `^{[\s\S]*}$` */
  predicate IsObjectShape(v: string) {
    |v| >= 2 && v[0] == '{' && v[|v| - 1] == '}'
  }

  /** `^[\s\S]+\[\]$` */
  predicate IsLiteralArray(v: string) {
    |v| >= 3 && v[|v| - 2] == '[' && v[|v| - 1] == ']'
  }

  /** `^Array<[\s\S]+>$` */
  predicate IsDeclarationArray(v: string) {
    |v| >= 8 && v[..6] == "Array<" && v[|v| - 1] == '>'
  }

  predicate IsArrayShape(v: string) {
    IsLiteralArray(v) || IsDeclarationArray(v)
  }

  /** `^\[[\s\S]*\]$` */
  predicate IsTupleShape(v: string) {
    |v| >= 2 && v[0] == '[' && v[|v| - 1] == ']'
  }

  /** `^'[\s\S]*'$` */
  predicate IsSingleString(v: string) {
    |v| >= 2 && v[0] == '\'' && v[|v| - 1] == '\''
  }

  /** `^"[\s\S]*"$` */
  predicate IsDoubleString(v: string) {
    |v| >= 2 && v[0] == '"' && v[|v| - 1] == '"'
  }

  /** `!isNaN(Number(v))`, on decimal notation. */
  predicate IsNumberLiteral(v: string) {
    DecimalNumber(v).Some?
  }

  predicate IsEnumerationShape(v: string) {
    IsSingleString(v) || IsDoubleString(v) || v == "true" || v == "false" || IsNumberLiteral(v)
  }

  /** Each pattern, read from the text it is made of: the delimiters around
      any content, with the content required to be non-empty exactly where
      the pattern says `+`. */
  lemma ShapesOfContent(m: string)
    ensures IsParentheses("(" + m + ")") <==> m != ""
    ensures IsObjectShape("{" + m + "}")
    ensures IsLiteralArray(m + "[]") <==> m != ""
    ensures IsDeclarationArray("Array<" + m + ">") <==> m != ""
    ensures IsTupleShape("[" + m + "]")
    ensures IsSingleString("'" + m + "'") && IsDoubleString("\"" + m + "\"")
  {
    assert ("Array<" + m + ">")[..6] == "Array<";
  }

  /** Conversely, every token the patterns accept is made that way, so the
      parser's slices recover the content. */
  lemma ContentOfShapes(v: string)
    ensures IsParentheses(v) ==> v == "(" + v[1..|v| - 1] + ")" && v[1..|v| - 1] != ""
    ensures IsObjectShape(v) ==> v == "{" + v[1..|v| - 1] + "}"
    ensures IsLiteralArray(v) ==> v == v[..|v| - 2] + "[]" && v[..|v| - 2] != ""
    ensures IsDeclarationArray(v) ==> v == "Array<" + v[6..|v| - 1] + ">" && v[6..|v| - 1] != ""
    ensures IsTupleShape(v) ==> v == "[" + v[1..|v| - 1] + "]"
  {
    if |v| >= 2 {
      assert v == [v[0]] + v[1..|v| - 1] + [v[|v| - 1]];
    }
    if IsParentheses(v) {
      assert v == "(" + v[1..|v| - 1] + ")";
    }
    if IsObjectShape(v) {
      assert v == "{" + v[1..|v| - 1] + "}";
    }
    if IsTupleShape(v) {
      assert v == "[" + v[1..|v| - 1] + "]";
    }
    if IsDeclarationArray(v) {
      assert v == v[..6] + v[6..|v| - 1] + [v[|v| - 1]];
    }
    if IsLiteralArray(v) {
      assert v == v[..|v| - 2] + [v[|v| - 2], v[|v| - 1]];
    }
  }

  /** A literal array of a tuple also has the shape of a tuple: the parser
      tries arrays first, so `[a][]` is an array. */
  lemma ArrayAndTupleOverlap()
    ensures IsLiteralArray("[a][]") && IsTupleShape("[a][]")
  {
  }

  /** No keyword is spelled like a literal or a bracketed form. */
  lemma KeywordsAreNotShapes(v: string)
    requires FromKeyword(v).Some?
    ensures !IsParentheses(v) && !IsObjectShape(v) && !IsArrayShape(v) && !IsTupleShape(v) && !IsEnumerationShape(v)
  {
    var p := FromKeyword(v).value;
    KeywordIsWord(p);
    WordIsNoShape(v);
  }

  /** A keyword is a word of at least three lower-case letters, and not a
      boolean literal. */
  lemma KeywordIsWord(p: Primitive)
    ensures |Keyword(p)| >= 3 && Keyword(p) != "true" && Keyword(p) != "false"
    ensures forall j | 0 <= j < |Keyword(p)| :: 'a' <= Keyword(p)[j] <= 'z'
  {
  }

  /** A word of lower-case letters that is no boolean literal has none of
      the shapes. */
  lemma WordIsNoShape(v: string)
    requires |v| >= 3 && v != "true" && v != "false"
    requires forall j | 0 <= j < |v| :: 'a' <= v[j] <= 'z'
    ensures !IsParentheses(v) && !IsObjectShape(v) && !IsArrayShape(v) && !IsTupleShape(v) && !IsEnumerationShape(v)
  {
    assert 'a' <= v[0] <= 'z' && 'a' <= v[|v| - 1] <= 'z';
    assert FirstIndex(v, '.') == -1;
    assert !IsDigit(v[0]);
  }
}
