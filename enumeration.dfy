/** parseEnumerationAT: a quoted token becomes its decoded string, `true`
    and `false` become booleans, any other numeric token becomes its
    number. `Decode` is the decoding loop as a function and `Escape` the
    encoding it inverts; `ParseEnumerationAT` is the loop itself. */
module Enumeration {
  import opened Wrappers
  import opened Chars
  import opened TypeTree
  import opened Classify

  /** `prefix` in front of a decoding that may have failed. */
  function Prepend(prefix: string, rest: Option<string>): (r: Option<string>)
    ensures r.Some? <==> rest.Some?
    ensures r.Some? ==> r.value == prefix + rest.value
  {
    match rest
    case None => None
    case Some(t) => Some(prefix + t)
  }

  lemma PrependTwice(a: string, b: string, rest: Option<string>)
    ensures Prepend(a, Prepend(b, rest)) == Prepend(a + b, rest)
  {
    if rest.Some? {
      assert a + (b + rest.value) == (a + b) + rest.value;
    }
  }

  /** The characters `f[i..end]` with each backslash and the character after
      it decoded through the escape table; a backslash in the last position
      has nothing after it and fails. */
  function Decode(f: string, i: nat, end: nat): (r: Option<string>)
    requires i <= end <= |f|
    ensures r.Some? ==> |r.value| <= end - i
    decreases end - i
  {
    if i == end then Some("")
    else if f[i] == '\\' then
      if i == end - 1 then None else Prepend([Unescape(f[i + 1])], Decode(f, i + 2, end))
    else Prepend([f[i]], Decode(f, i + 1, end))
  }

  /** How a character is written inside a quoted literal: with its escape
      letter when the table has one, as itself otherwise. */
  function EscapeChar(c: char): (r: string)
    ensures r == [c] || (|r| == 2 && r[0] == '\\')
    ensures r == [c] ==> c != '\\'
  {
    match EscapeLetter(c)
    case Some(l) => ['\\', l]
    case None => [c]
  }

  /** A string written so that decoding gives it back. */
  function Escape(s: string): (r: string)
    ensures |r| >= |s|
  {
    if s == [] then "" else EscapeChar(s[0]) + Escape(s[1..])
  }

  /** Decoding inverts escaping, wherever the escaped text stands. */
  lemma {:induction false} DecodeEscape(f: string, i: nat, end: nat, s: string)
    requires i <= end <= |f| && f[i..end] == Escape(s)
    ensures Decode(f, i, end) == Some(s)
    decreases |s|
  {
    if s != [] {
      var e := EscapeChar(s[0]);
      var rest := Escape(s[1..]);
      assert Escape(s) == e + rest;
      SliceSplit(f, i, end, e, rest);
      DecodeEscape(f, i + |e|, end, s[1..]);
      DecodeEscapeChar(f, i, end, s[0]);
      assert Decode(f, i, end) == Prepend([s[0]], Some(s[1..]));
      assert [s[0]] + s[1..] == s;
    }
  }

  /** One escaped character at the front decodes to that character. */
  lemma DecodeEscapeChar(f: string, i: nat, end: nat, c: char)
    requires i + |EscapeChar(c)| <= end <= |f| && f[i..i + |EscapeChar(c)|] == EscapeChar(c)
    ensures Decode(f, i, end) == Prepend([c], Decode(f, i + |EscapeChar(c)|, end))
  {
    var e := EscapeChar(c);
    assert f[i] == e[0];
    if |e| == 2 {
      assert f[i + 1] == e[1] == EscapeLetter(c).value;
    }
  }

  lemma SliceSplit(f: string, i: nat, end: nat, a: string, b: string)
    requires i <= end <= |f| && f[i..end] == a + b
    ensures i + |a| <= end && f[i..i + |a|] == a && f[i + |a|..end] == b
  {
    assert f[i..i + |a|] == f[i..end][..|a|];
    assert f[i + |a|..end] == f[i..end][|a|..];
  }

  /** The literal and the failure `parseEnumerationAT` produces. */
  function ParseEnumeration(t: string): (r: Result<Literal>)
    ensures r.Ok? <==>
      IsEnumerationShape(t) && ((IsSingleString(t) || IsDoubleString(t)) ==> Decode(t, 1, |t| - 1).Some?)
    ensures r.Ok? && r.value.StringLiteral? ==>
      (IsSingleString(t) || IsDoubleString(t)) && Some(r.value.s) == Decode(t, 1, |t| - 1)
    ensures r.Ok? && r.value.BooleanLiteral? ==> t == (if r.value.b then "true" else "false")
    ensures r.Ok? && r.value.NumberLiteral? ==> DecimalNumber(t) == Some(r.value.n)
  {
    if !IsEnumerationShape(t) then TypeError
    else if IsSingleString(t) || IsDoubleString(t) then
      match Decode(t, 1, |t| - 1)
      case None => TypeError
      case Some(s) => Ok(StringLiteral(s))
    else if t == "true" then Ok(BooleanLiteral(true))
    else if t == "false" then Ok(BooleanLiteral(false))
    else Ok(NumberLiteral(DecimalNumber(t).value))
  }

  /** A double-quoted escaped string is read back as that string. */
  lemma QuotedRoundTrip(s: string)
    ensures ParseEnumeration("\"" + Escape(s) + "\"") == Ok(StringLiteral(s))
  {
    var t := "\"" + Escape(s) + "\"";
    assert t[1..|t| - 1] == Escape(s);
    DecodeEscape(t, 1, |t| - 1, s);
  }

  /** The decimal spelling of a natural number is read back as that number. */
  lemma NumberRoundTrip(n: nat)
    ensures ParseEnumeration(NatToString(n)) == Ok(NumberLiteral(n as real))
  {
    var t := NatToString(n);
    NatToStringIsNumber(n);
    assert IsDigit(t[0]);
    assert !IsSingleString(t) && !IsDoubleString(t) && t != "true" && t != "false";
    assert IsNumberLiteral(t);
  }

  /** The decoding loop of `parseEnumerationAT` on a token already known to
      be quoted: `i` walks the inner characters, jumping over the character
      after a backslash. */
  method DecodeQuoted(formatAstriction: string) returns (r: Option<string>)
    requires |formatAstriction| >= 2
    ensures r == Decode(formatAstriction, 1, |formatAstriction| - 1)
  {
    var length := |formatAstriction| - 1;
    var buffer := "";
    var i := 1;
    assert Prepend(buffer, Decode(formatAstriction, i, length)) == Decode(formatAstriction, 1, length) by {
      var d := Decode(formatAstriction, i, length);
      if d.Some? { assert "" + d.value == d.value; }
    }
    while i < length
      invariant 1 <= i <= length
      invariant Decode(formatAstriction, 1, length) == Prepend(buffer, Decode(formatAstriction, i, length))
      decreases length - i
    {
      var ch := formatAstriction[i];
      if ch == '\\' {
        if i == length - 1 {
          return None;
        }
        var nextCh := formatAstriction[i + 1];
        if nextCh in EscapeTable {
          ch := EscapeTable[nextCh];
        } else {
          ch := nextCh;
        }
        i := i + 1;
      }
      PrependTwice(buffer, [ch], Decode(formatAstriction, i + 1, length));
      buffer := buffer + [ch];
      i := i + 1;
    }
    assert buffer + "" == buffer;
    r := Some(buffer);
  }

  /** parseEnumerationAT. */
  method ParseEnumerationAT(formatAstriction: string) returns (r: Result<Literal>)
    ensures r == ParseEnumeration(formatAstriction)
  {
    if !IsEnumerationShape(formatAstriction) {
      return TypeError;
    }
    if IsSingleString(formatAstriction) || IsDoubleString(formatAstriction) {
      var s := DecodeQuoted(formatAstriction);
      if s.None? {
        return TypeError;
      }
      return Ok(StringLiteral(s.value));
    } else if formatAstriction == "true" {
      return Ok(BooleanLiteral(true));
    } else if formatAstriction == "false" {
      return Ok(BooleanLiteral(false));
    }
    r := Ok(NumberLiteral(DecimalNumber(formatAstriction).value));
  }
}
