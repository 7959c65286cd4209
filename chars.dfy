/** Character tables of the constraint compiler: the escape table used when
    decoding quoted enumeration literals, the set of invisible characters
    dropped by the tokenizer, the default property-name validator and the
    decimal number literals accepted as numeric enumerations. */
module Chars {
  import opened Wrappers

  const VerticalTab: char := 11 as char
  const Backspace: char := 8 as char
  const FormFeed: char := 12 as char

  /** ESCAPE_CHARACTER: the character after a backslash mapped to what it stands for. */
  const EscapeTable: map<char, char> := map[
    '0' := '\0', '\'' := '\'', '"' := '"', '\\' := '\\', 'n' := '\n',
    'r' := '\r', 'v' := VerticalTab, 't' := '\t', 'b' := Backspace, 'f' := FormFeed]

  /** INVISIBLE_CHARACTER */
  const Invisible: set<char> := {' ', FormFeed, '\n', '\r', '\t', VerticalTab}

  /** The decoding of `\c`: the table entry for `c`, or `c` itself when `c` has none. */
  function Unescape(c: char): char {
    if c in EscapeTable then EscapeTable[c] else c
  }

  /** The escape letter a character is written with, if the table has one:
      the inverse of EscapeTable. */
  function EscapeLetter(c: char): (r: Option<char>)
    ensures r.Some? ==> r.value in EscapeTable && EscapeTable[r.value] == c
    ensures r.None? ==> forall k | k in EscapeTable :: EscapeTable[k] != c
  {
    if c == '\0' then Some('0')
    else if c == '\'' then Some('\'')
    else if c == '"' then Some('"')
    else if c == '\\' then Some('\\')
    else if c == '\n' then Some('n')
    else if c == '\r' then Some('r')
    else if c == VerticalTab then Some('v')
    else if c == '\t' then Some('t')
    else if c == Backspace then Some('b')
    else if c == FormFeed then Some('f')
    else None
  }

  // ---------------------------------------------------------------------
  // DEFAULT_CHECK_VARIABLE_NAME: /^[_a-zA-Z$][_a-zA-Z$\d]*$/

  predicate IsLetter(c: char) {
    ('a' <= c <= 'z') || ('A' <= c <= 'Z')
  }

  predicate IsDigit(c: char) {
    '0' <= c <= '9'
  }

  predicate IsIdentifierStart(c: char) {
    c == '_' || c == '$' || IsLetter(c)
  }

  predicate IsIdentifierPart(c: char) {
    IsIdentifierStart(c) || IsDigit(c)
  }

  /** The starred part of the pattern: every character from `i` on is an identifier part. */
  predicate IdentifierTail(v: string, i: nat)
    decreases |v| - i
  {
    i >= |v| || (IsIdentifierPart(v[i]) && IdentifierTail(v, i + 1))
  }

  /** The default property-name validator. */
  predicate IsIdentifier(v: string) {
    |v| > 0 && IsIdentifierStart(v[0]) && IdentifierTail(v, 1)
  }

  lemma {:induction false} IdentifierTailMeans(v: string, i: nat)
    ensures IdentifierTail(v, i) <==> forall j | i <= j < |v| :: IsIdentifierPart(v[j])
    decreases |v| - i
  {
    if i < |v| {
      IdentifierTailMeans(v, i + 1);
    }
  }

  /** The pattern, read as a statement about every character. */
  lemma IdentifierMeans(v: string)
    ensures IsIdentifier(v) <==>
      |v| > 0 && IsIdentifierStart(v[0]) && forall j | 1 <= j < |v| :: IsIdentifierPart(v[j])
  {
    IdentifierTailMeans(v, 1);
  }

  /** A name accepted by the default validator holds none of the characters
      the constraint syntax gives a meaning to. */
  lemma IdentifierHasNoSyntax(v: string, j: nat)
    requires IsIdentifier(v) && j < |v|
    ensures v[j] !in Invisible
    ensures v[j] !in ":?,;|{}()[]<>\"'\\"
  {
    IdentifierMeans(v);
    PartHasNoSyntax(v[j]);
  }

  lemma PartHasNoSyntax(x: char)
    requires IsIdentifierPart(x)
    ensures x !in Invisible
    ensures x !in ":?,;|{}()[]<>\"'\\"
  {
    if IsLetter(x) {
      assert 'a' <= x <= 'z' || 'A' <= x <= 'Z';
    }
  }

  // ---------------------------------------------------------------------
  // Number(v) on decimal notation: [+-]? digits? ('.' digits?)?, with at least one digit.

  function DigitValue(c: char): nat
    requires IsDigit(c)
  {
    (c as int - '0' as int) as nat
  }

  predicate AllDigits(s: string) {
    forall j | 0 <= j < |s| :: IsDigit(s[j])
  }

  /** The value of a run of decimal digits, most significant first. */
  function DigitsValue(s: string): nat
    requires AllDigits(s)
  {
    if s == [] then 0 else 10 * DigitsValue(s[..|s| - 1]) + DigitValue(s[|s| - 1])
  }

  function Pow10(k: nat): (r: nat)
    ensures r >= 1
  {
    if k == 0 then 1 else 10 * Pow10(k - 1)
  }

  /** The value of the unsigned part `digits` or `digits.digits` (either side may be empty, not both). */
  function UnsignedDecimal(s: string): Option<real> {
    var k := FirstIndex(s, '.');
    if k >= 0 then
      var whole, frac := s[..k], s[k + 1..];
      if AllDigits(whole) && AllDigits(frac) && |whole| + |frac| > 0 then
        Some(DigitsValue(whole) as real + DigitsValue(frac) as real / Pow10(|frac|) as real)
      else None
    else if AllDigits(s) && |s| > 0 then Some(DigitsValue(s) as real)
    else None
  }

  /** `Number(v)` where it is not NaN, for decimal notation with an optional sign. */
  function DecimalNumber(v: string): Option<real> {
    if |v| > 0 && v[0] == '-' then
      match UnsignedDecimal(v[1..])
      case Some(x) => Some(-x)
      case None => None
    else if |v| > 0 && v[0] == '+' then UnsignedDecimal(v[1..])
    else UnsignedDecimal(v)
  }

  /** A numeric separator makes the unsigned part unreadable: `_` is neither
      a digit nor the point. */
  lemma UnsignedRejectsSeparator(s: string, i: nat)
    requires i < |s| && s[i] == '_'
    ensures UnsignedDecimal(s) == None
  {
    assert !IsDigit(s[i]);
    var k := FirstIndex(s, '.');
    if k >= 0 {
      if i < k {
        assert s[..k][i] == '_';
      } else {
        assert i != k;
        assert s[k + 1..][i - k - 1] == '_';
      }
    }
  }

  /** `Number('1_000')` is NaN: separators are no part of a numeric string,
      so a text holding `_` is no decimal number. */
  lemma DecimalRejectsSeparator(v: string, i: nat)
    requires i < |v| && v[i] == '_'
    ensures DecimalNumber(v) == None
  {
    if |v| > 0 && (v[0] == '-' || v[0] == '+') {
      assert i > 0 && v[1..][i - 1] == '_';
      UnsignedRejectsSeparator(v[1..], i - 1);
    } else {
      UnsignedRejectsSeparator(v, i);
    }
  }

  /** The position of the first `c` in `s`, or -1 (String.prototype.indexOf). */
  function FirstIndex(s: string, c: char): (r: int)
    ensures -1 <= r < |s|
    ensures r >= 0 ==> s[r] == c && forall j | 0 <= j < r :: s[j] != c
    ensures r == -1 ==> forall j | 0 <= j < |s| :: s[j] != c
  {
    if |s| == 0 then -1
    else if s[|s| - 1] != c then FirstIndex(s[..|s| - 1], c)
    else
      var k := FirstIndex(s[..|s| - 1], c);
      if k == -1 then |s| - 1 else k
  }

  // ---------------------------------------------------------------------
  // Decimal spelling of array indices (the keys Object.keys yields for an array).

  function DigitChar(d: nat): (c: char)
    requires d < 10
    ensures IsDigit(c) && DigitValue(c) == d
  {
    ('0' as int + d) as char
  }

  /** String(n) for a natural number. */
  function NatToString(n: nat): (s: string)
    ensures |s| > 0 && AllDigits(s)
  {
    if n < 10 then [DigitChar(n)] else NatToString(n / 10) + [DigitChar(n % 10)]
  }

  lemma {:induction false} NatToStringValue(n: nat)
    ensures DigitsValue(NatToString(n)) == n
  {
    var s := NatToString(n);
    if n < 10 {
      assert s[..|s| - 1] == [];
    } else {
      NatToStringValue(n / 10);
      assert s[..|s| - 1] == NatToString(n / 10);
    }
  }

  /** Reading back the decimal spelling of a natural number as a numeric
      literal gives that number. */
  lemma NatToStringIsNumber(n: nat)
    ensures DecimalNumber(NatToString(n)) == Some(n as real)
  {
    var s := NatToString(n);
    NatToStringValue(n);
    assert s[0] != '-' && s[0] != '+' by { assert IsDigit(s[0]); }
    assert FirstIndex(s, '.') == -1;
  }

  /** Distinct natural numbers are spelled differently. */
  lemma NatToStringInjective(m: nat, n: nat)
    requires NatToString(m) == NatToString(n)
    ensures m == n
  {
    NatToStringValue(m);
    NatToStringValue(n);
  }
}
