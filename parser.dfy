/** The recursive parser: `parseFormatAstriction` splits a constraint on
    `|` and classifies each member, in this order, as a parenthesised union
    (flattened into the surrounding one), a primitive keyword, an object,
    an array, a tuple or an enumeration literal; anything else throws.
    The sub-parsers are mutually recursive functions; `ParseObjectAT` and
    `ParseRawAstriction` are the two loops of the source, proved equal to
    the functions. */
module Parser {
  import opened Wrappers
  import opened Chars
  import opened TypeTree
  import opened Classify
  import opened Enumeration
  import opened Tokenizer

  /** AstrictionOption: the primitive keywords in use and the validator of
      property names. */
  datatype Options = Options(primitive: set<Primitive>, checkVariableName: string -> bool)

  // ---------------------------------------------------------------------
  // The shape of every tree the parser builds.

  /** A non-empty union of well-formed nodes. */
  predicate WellFormedTree(t: seq<Node>, opt: Options)
    decreases t
  {
    |t| > 0 && forall k | 0 <= k < |t| :: WellFormedNode(t[k], opt)
  }

  /** Primitives are among the configured keywords; an object's fields
      have distinct names accepted by the validator; a tuple has at least
      one slot; every nested tree is non-empty. */
  predicate WellFormedNode(n: Node, opt: Options)
    decreases n
  {
    match n
    case PrimitiveAT(p) => p in opt.primitive
    case ArrayAT(element) => WellFormedTree(element, opt)
    case ObjectAT(fields) => DistinctNames(fields) && forall k | 0 <= k < |fields| :: WellFormedField(fields[k], opt)
    case TupleAT(slots) => |slots| > 0 && forall k | 0 <= k < |slots| :: WellFormedTree(slots[k].tree, opt)
    case EnumerationAT(_) => true
  }

  predicate WellFormedField(f: Field, opt: Options)
    decreases f
  {
    opt.checkVariableName(f.name) && WellFormedTree(f.tree, opt)
  }

  predicate WellFormedNodes(t: seq<Node>, opt: Options) {
    forall k | 0 <= k < |t| :: WellFormedNode(t[k], opt)
  }

  // ---------------------------------------------------------------------
  // One member of an object: `name:type` or `name?:type`.

  /** The name, the required flag and the type text of an object member:
      everything before the first `:` is the name, unless the character just
      before it is `?`, which marks the field optional and is not part of
      the name. A member without `:` or with a rejected name fails. */
  function SplitField(structure: string, checkVariableName: string -> bool): (r: Option<(string, bool, string)>)
    ensures r.Some? ==> |r.value.2| < |structure| && checkVariableName(r.value.0)
  {
    var index := FirstIndex(structure, ':');
    if index == -1 then None
    else
      var isRequired := !(index > 0 && structure[index - 1] == '?');
      var name := structure[..if isRequired then index else index - 1];
      if !checkVariableName(name) then None
      else Some((name, isRequired, structure[index + 1..]))
  }

  /** A member is read as the name, the optional mark and the type text it
      is written as; and it is read that way exactly when the name has no
      `:`, passes the validator, and does not end with `?` unless marked
      optional (such a `?` would be read as the mark). */
  lemma SplitFieldMeans(name: string, isRequired: bool, ty: string, check: string -> bool)
    ensures var structure := name + (if isRequired then "" else "?") + ":" + ty;
      SplitField(structure, check) == Some((name, isRequired, ty)) <==>
        && (forall k | 0 <= k < |name| :: name[k] != ':')
        && check(name)
        && (isRequired ==> name == "" || name[|name| - 1] != '?')
  {
    var mark := if isRequired then "" else "?";
    var structure := name + mark + ":" + ty;
    var index := |name| + |mark|;
    assert structure[index] == ':';
    assert structure[..index] == name + mark;
    assert structure[index + 1..] == ty;
    if forall k | 0 <= k < |name| :: name[k] != ':' {
      assert forall k | 0 <= k < index :: structure[k] != ':' by {
        forall k | 0 <= k < index ensures structure[k] != ':' {
          if k < |name| { assert structure[k] == name[k]; }
        }
      }
      assert FirstIndex(structure, ':') == index;
      if !isRequired {
        assert structure[index - 1] == '?';
        assert structure[..index - 1] == name;
      } else if index > 0 {
        assert structure[index - 1] == name[|name| - 1];
        assert structure[..index] == name;
      }
    } else {
      var k :| 0 <= k < |name| && name[k] == ':';
      assert structure[k] == ':';
      assert FirstIndex(structure, ':') <= k;
    }
  }

  /** A member without `:` fails. */
  lemma FieldWithoutColon(structure: string, check: string -> bool)
    requires forall k | 0 <= k < |structure| :: structure[k] != ':'
    ensures SplitField(structure, check) == None
  {
  }

  // ---------------------------------------------------------------------
  // The parser.

  /** parseFormatAstriction: never an empty tree; it throws instead. */
  function ParseFormat(s: string, opt: Options): (r: Result<seq<Node>>)
    ensures r.Ok? ==> WellFormedTree(r.value, opt) && SplitAstriction(s, ['|']).Ok?
    decreases |s|, 3, 0
  {
    var split := SplitAstriction(s, ['|']);
    if split.TypeError? then TypeError
    else
      var att := ParseMembers(split.value, |s|, opt);
      if att.TypeError? || |att.value| == 0 then TypeError else att
  }

  /** The members of a union, left to right, each contributing its nodes. */
  function ParseMembers(members: seq<string>, bound: nat, opt: Options): (r: Result<seq<Node>>)
    requires forall k | 0 <= k < |members| :: |members[k]| <= bound
    ensures r.Ok? ==> WellFormedNodes(r.value, opt) && |r.value| >= |members|
    decreases bound, 2, |members|
  {
    if members == [] then Ok([])
    else
      var first := ParseMember(members[0], opt);
      if first.TypeError? then TypeError
      else
        var rest := ParseMembers(members[1..], bound, opt);
        if rest.TypeError? then TypeError else Ok(first.value + rest.value)
  }

  /** One member of a union: only the six token kinds parse, and each
      parses to at least one node. */
  function ParseMember(t: string, opt: Options): (r: Result<seq<Node>>)
    ensures r.Ok? ==> WellFormedTree(r.value, opt)
    ensures r.Ok? ==>
      IsParentheses(t) || IsPrimitiveKeyword(t, opt.primitive) || IsObjectShape(t) ||
      IsArrayShape(t) || IsTupleShape(t) || IsEnumerationShape(t)
    decreases |t|, 1, 0
  {
    if IsParentheses(t) then ParseFormat(t[1..|t| - 1], opt)
    else if IsPrimitiveKeyword(t, opt.primitive) then Ok([PrimitiveAT(FromKeyword(t).value)])
    else if IsObjectShape(t) then
      var n := ParseObject(t, opt);
      if n.TypeError? then TypeError else Ok([n.value])
    else if IsArrayShape(t) then
      var n := ParseArray(t, opt);
      if n.TypeError? then TypeError else Ok([n.value])
    else if IsTupleShape(t) then
      var n := ParseTuple(t, opt);
      if n.TypeError? then TypeError else Ok([n.value])
    else if IsEnumerationShape(t) then
      var n := ParseEnumeration(t);
      if n.TypeError? then TypeError else Ok([EnumerationAT(n.value)])
    else TypeError
  }

  /** parseArrayAT: `T[]` or `Array<T>`, the literal form tried first. */
  function ParseArray(t: string, opt: Options): (r: Result<Node>)
    ensures r.Ok? ==> IsArrayShape(t) && r.value.ArrayAT? && WellFormedNode(r.value, opt)
    ensures r.Ok? && IsLiteralArray(t) ==> ParseFormat(t[..|t| - 2], opt) == Ok(r.value.element)
    ensures r.Ok? && !IsLiteralArray(t) ==> ParseFormat(t[6..|t| - 1], opt) == Ok(r.value.element)
    decreases |t|, 0, 0
  {
    if !IsArrayShape(t) then TypeError
    else
      var buffer := if IsLiteralArray(t) then t[..|t| - 2] else t[6..|t| - 1];
      var element := ParseFormat(buffer, opt);
      if element.TypeError? || |element.value| == 0 then TypeError else Ok(ArrayAT(element.value))
  }

  /** The body of an object between the braces, with one trailing `,` or
      `;` removed. */
  function ObjectBody(t: string): (b: string)
    requires IsObjectShape(t)
    ensures |b| < |t|
  {
    var buffer := t[1..|t| - 1];
    if |buffer| > 0 && buffer[|buffer| - 1] in [',', ';'] then buffer[..|buffer| - 1] else buffer
  }

  /** parseObjectAT: `{}` is the empty object; otherwise the body is split
      on `,` and `;` and every member is set into the fields in turn. */
  function ParseObject(t: string, opt: Options): (r: Result<Node>)
    ensures r.Ok? ==> IsObjectShape(t) && r.value.ObjectAT? && WellFormedNode(r.value, opt)
    ensures t == "{}" ==> r == Ok(ObjectAT([]))
    ensures r.Ok? && t != "{}" ==> |r.value.fields| > 0
    decreases |t|, 0, 0
  {
    if !IsObjectShape(t) then TypeError
    else if |t| == 2 then Ok(ObjectAT([]))
    else
      var body := ObjectBody(t);
      var structures := SplitAstriction(body, [',', ';']);
      if structures.TypeError? then TypeError
      else
        var fields := ParseFields(structures.value, |body|, [], opt);
        if fields.TypeError? || |fields.value| == 0 then TypeError else Ok(ObjectAT(fields.value))
  }

  /** The loop of parseObjectAT from some member on, with the fields set so
      far: the Map keeps one entry per name. */
  function ParseFields(structures: seq<string>, bound: nat, acc: seq<Field>, opt: Options): (r: Result<seq<Field>>)
    requires forall k | 0 <= k < |structures| :: |structures[k]| <= bound
    requires DistinctNames(acc) && forall k | 0 <= k < |acc| :: WellFormedField(acc[k], opt)
    ensures r.Ok? ==> DistinctNames(r.value) && forall k | 0 <= k < |r.value| :: WellFormedField(r.value[k], opt)
    ensures r.Ok? ==> |acc| <= |r.value| && (|structures| > 0 ==> |r.value| > 0)
    decreases bound, 4, |structures|
  {
    if structures == [] then Ok(acc)
    else
      var next := SetMember(structures[0], acc, opt);
      if next.TypeError? then TypeError else ParseFields(structures[1..], bound, next.value, opt)
  }

  /** One turn of parseObjectAT's loop: the member's name, flag and type
      set into the fields. */
  function SetMember(structure: string, acc: seq<Field>, opt: Options): (r: Result<seq<Field>>)
    requires DistinctNames(acc) && forall k | 0 <= k < |acc| :: WellFormedField(acc[k], opt)
    ensures r.Ok? ==> DistinctNames(r.value) && forall k | 0 <= k < |r.value| :: WellFormedField(r.value[k], opt)
    ensures r.Ok? ==> |acc| <= |r.value| && |r.value| > 0
    ensures r.Ok? ==> SplitField(structure, opt.checkVariableName).Some?
    ensures r.Ok? ==> var (name, isRequired, ty) := SplitField(structure, opt.checkVariableName).value;
      var j := FindField(r.value, name); j >= 0 && r.value[j].isRequired == isRequired && Ok(r.value[j].tree) == ParseFormat(ty, opt)
    decreases |structure|, 4, 0
  {
    match SplitField(structure, opt.checkVariableName)
    case None => TypeError
    case Some((name, isRequired, ty)) =>
      var tree := ParseFormat(ty, opt);
      if tree.TypeError? then TypeError
      else
        var f := Field(name, tree.value, isRequired);
        SetFieldKeepsMap(acc, f, name);
        SetFieldWellFormed(acc, f, opt);
        Ok(SetField(acc, f))
  }

  lemma SetFieldWellFormed(fields: seq<Field>, f: Field, opt: Options)
    requires forall k | 0 <= k < |fields| :: WellFormedField(fields[k], opt)
    requires WellFormedField(f, opt)
    ensures forall k | 0 <= k < |SetField(fields, f)| :: WellFormedField(SetField(fields, f)[k], opt)
  {
  }

  /** parseTupleAT: the text between the brackets split on `,`, each slot
      parsed as a union. */
  function ParseTuple(t: string, opt: Options): (r: Result<Node>)
    ensures r.Ok? ==> IsTupleShape(t) && r.value.TupleAT? && WellFormedNode(r.value, opt)
    ensures r.Ok? <==>
      && IsTupleShape(t) && SplitAstriction(t[1..|t| - 1], [',']).Ok?
      && var members := SplitAstriction(t[1..|t| - 1], [',']).value;
         forall k | 0 <= k < |members| :: ParseFormat(members[k], opt).Ok?
    ensures r.Ok? ==>
      var members := SplitAstriction(t[1..|t| - 1], [',']).value;
      && |r.value.slots| == |members|
      && forall k | 0 <= k < |members| :: Ok(r.value.slots[k].tree) == ParseFormat(members[k], opt)
    decreases |t|, 0, 0
  {
    if !IsTupleShape(t) then TypeError
    else
      var inner := t[1..|t| - 1];
      var split := SplitAstriction(inner, [',']);
      if split.TypeError? then TypeError
      else
        var slots := ParseSlots(split.value, |inner|, opt);
        if slots.TypeError? then TypeError else Ok(TupleAT(slots.value))
  }

  /** The tuple's slots: slot k is the union member k parses to, and the
      tuple is rejected as soon as one member is. */
  function ParseSlots(members: seq<string>, bound: nat, opt: Options): (r: Result<seq<Slot>>)
    requires forall k | 0 <= k < |members| :: |members[k]| <= bound
    ensures r.Ok? <==> forall k | 0 <= k < |members| :: ParseFormat(members[k], opt).Ok?
    ensures r.Ok? ==> |r.value| == |members| && forall k | 0 <= k < |r.value| :: WellFormedTree(r.value[k].tree, opt)
    ensures r.Ok? ==> forall k | 0 <= k < |members| :: Ok(r.value[k].tree) == ParseFormat(members[k], opt)
    decreases bound, 4, |members|
  {
    if members == [] then Ok([])
    else
      var first := ParseFormat(members[0], opt);
      if first.TypeError? then TypeError
      else
        var rest := ParseSlots(members[1..], bound, opt);
        if rest.TypeError? then TypeError else Ok([Slot(first.value)] + rest.value)
  }

  // ---------------------------------------------------------------------
  // parseRawAstriction

  /** The text without its trailing run of `;`. */
  function TrimSemicolons(s: string): (r: string)
    ensures r <= s && (r == "" || r[|r| - 1] != ';')
    ensures forall k | |r| <= k < |s| :: s[k] == ';'
  {
    if s != [] && s[|s| - 1] == ';' then TrimSemicolons(s[..|s| - 1]) else s
  }

  /** parseRawAstriction's result. */
  function ParseRaw(raw: string, opt: Options): (r: Result<seq<Node>>)
    ensures r.Ok? ==> WellFormedTree(r.value, opt)
  {
    ParseFormat(TrimSemicolons(raw), opt)
  }

  /** Appending semicolons to a constraint does not change how it parses. */
  lemma TrailingSemicolonsIgnored(raw: string, n: nat, opt: Options)
    ensures ParseRaw(raw + seq(n, _ => ';'), opt) == ParseRaw(raw, opt)
    decreases n
  {
    if n > 0 {
      var more := raw + seq(n, _ => ';');
      assert more[..|more| - 1] == raw + seq(n - 1, _ => ';');
      TrailingSemicolonsIgnored(raw, n - 1, opt);
    } else {
      assert raw + seq(n, _ => ';') == raw;
    }
  }

  /** parseRawAstriction: step back over the trailing semicolons, then
      parse what is left. */
  method ParseRawAstriction(rawAstriction: string, opt: Options) returns (r: Result<seq<Node>>)
    ensures r == ParseRaw(rawAstriction, opt)
  {
    var i := |rawAstriction|;
    while i > 0 && rawAstriction[i - 1] == ';'
      invariant 0 <= i <= |rawAstriction|
      invariant TrimSemicolons(rawAstriction[..i]) == TrimSemicolons(rawAstriction)
      decreases i
    {
      assert rawAstriction[..i][..i - 1] == rawAstriction[..i - 1];
      i := i - 1;
    }
    assert rawAstriction[..i] == TrimSemicolons(rawAstriction[..i]);
    r := ParseFormatAstriction(rawAstriction[..i], opt);
  }

  // ---------------------------------------------------------------------
  // parseFormatAstriction's loop.

  /** Nodes already collected in front of the result of the members left. */
  function Collected(att: seq<Node>, rest: Result<seq<Node>>): (r: Result<seq<Node>>)
    ensures r.Ok? <==> rest.Ok?
    ensures r.Ok? ==> r.value == att + rest.value
  {
    if rest.TypeError? then TypeError else Ok(att + rest.value)
  }

  lemma CollectedTwice(att: seq<Node>, nodes: seq<Node>, rest: Result<seq<Node>>)
    ensures Collected(att, Collected(nodes, rest)) == Collected(att + nodes, rest)
  {
    if rest.Ok? {
      assert att + (nodes + rest.value) == (att + nodes) + rest.value;
    }
  }

  /** One member more: its nodes, then those of the members after it. */
  lemma ParseMembersStep(members: seq<string>, k: nat, bound: nat, opt: Options)
    requires k < |members| && forall j | 0 <= j < |members| :: |members[j]| <= bound
    ensures ParseMember(members[k], opt).TypeError? ==> ParseMembers(members[k..], bound, opt) == TypeError
    ensures ParseMember(members[k], opt).Ok? ==>
      ParseMembers(members[k..], bound, opt) == Collected(ParseMember(members[k], opt).value, ParseMembers(members[k + 1..], bound, opt))
  {
    assert members[k..][0] == members[k];
    assert members[k..][1..] == members[k + 1..];
  }

  /** The loop of parseFormatAstriction over the members of the union. */
  method ParseMembersLoop(members: seq<string>, bound: nat, opt: Options) returns (r: Result<seq<Node>>)
    requires forall j | 0 <= j < |members| :: |members[j]| <= bound
    ensures r == ParseMembers(members, bound, opt)
  {
    var att: seq<Node> := [];
    var k := 0;
    assert members[0..] == members;
    assert ParseMembers(members, bound, opt) == Collected(att, ParseMembers(members, bound, opt)) by {
      var whole := ParseMembers(members, bound, opt);
      if whole.Ok? { assert [] + whole.value == whole.value; }
    }
    while k < |members|
      invariant 0 <= k <= |members|
      invariant ParseMembers(members, bound, opt) == Collected(att, ParseMembers(members[k..], bound, opt))
      decreases |members| - k
    {
      var nodes := ParseMember(members[k], opt);
      ParseMembersStep(members, k, bound, opt);
      if nodes.TypeError? {
        return TypeError;
      }
      CollectedTwice(att, nodes.value, ParseMembers(members[k + 1..], bound, opt));
      att := att + nodes.value;
      k := k + 1;
    }
    assert members[k..] == [];
    assert att + [] == att;
    r := Ok(att);
  }

  /** parseFormatAstriction: the members of the union parsed in turn, their
      nodes pushed onto one list, which must not end up empty. */
  method ParseFormatAstriction(formatAstriction: string, opt: Options) returns (r: Result<seq<Node>>)
    ensures r == ParseFormat(formatAstriction, opt)
  {
    var split := SplitAstrictionMethod(formatAstriction, ['|']);
    if split.TypeError? {
      return TypeError;
    }
    var att := ParseMembersLoop(split.value, |formatAstriction|, opt);
    if att.TypeError? || |att.value| == 0 {
      return TypeError;
    }
    r := att;
  }

  // ---------------------------------------------------------------------
  // parseObjectAT's loop.

  /** The body of parseObjectAT's loop. */
  method SetMemberStep(structure: string, fields: seq<Field>, opt: Options) returns (r: Result<seq<Field>>)
    requires DistinctNames(fields) && forall j | 0 <= j < |fields| :: WellFormedField(fields[j], opt)
    ensures r == SetMember(structure, fields, opt)
  {
    var index := FirstIndex(structure, ':');
    if index == -1 {
      return TypeError;
    }
    var isRequired := !(index > 0 && structure[index - 1] == '?');
    var variableName := structure[..if isRequired then index else index - 1];
    if !opt.checkVariableName(variableName) {
      return TypeError;
    }
    var tree := ParseFormat(structure[index + 1..], opt);
    if tree.TypeError? {
      return TypeError;
    }
    var f := Field(variableName, tree.value, isRequired);
    r := Ok(SetField(fields, f));
  }

  /** The loop of parseObjectAT over the members. */
  method SetMembers(structures: seq<string>, bound: nat, opt: Options) returns (r: Result<seq<Field>>)
    requires forall k | 0 <= k < |structures| :: |structures[k]| <= bound
    ensures r == ParseFields(structures, bound, [], opt)
  {
    var fields: seq<Field> := [];
    var k := 0;
    while k < |structures|
      invariant 0 <= k <= |structures|
      invariant DistinctNames(fields) && forall j | 0 <= j < |fields| :: WellFormedField(fields[j], opt)
      invariant ParseFields(structures, bound, [], opt) == ParseFields(structures[k..], bound, fields, opt)
      decreases |structures| - k
    {
      var next := SetMemberStep(structures[k], fields, opt);
      if next.TypeError? {
        return TypeError;
      }
      assert structures[k..][1..] == structures[k + 1..];
      fields := next.value;
      k := k + 1;
    }
    r := Ok(fields);
  }

  /** parseObjectAT, filling the Map member by member. */
  method ParseObjectAT(formatAstriction: string, opt: Options) returns (r: Result<Node>)
    ensures r == ParseObject(formatAstriction, opt)
  {
    if !IsObjectShape(formatAstriction) {
      return TypeError;
    }
    var astrictionBuffer := formatAstriction[1..|formatAstriction| - 1];
    var length := |astrictionBuffer|;
    if length == 0 {
      return Ok(ObjectAT([]));
    }
    if astrictionBuffer[length - 1] in [',', ';'] {
      astrictionBuffer := astrictionBuffer[..length - 1];
    }
    assert astrictionBuffer == ObjectBody(formatAstriction);
    var split := SplitAstrictionMethod(astrictionBuffer, [',', ';']);
    if split.TypeError? {
      return TypeError;
    }
    var fields := SetMembers(split.value, |astrictionBuffer|, opt);
    if fields.TypeError? {
      return TypeError;
    }
    if |fields.value| == 0 {
      return TypeError;
    }
    r := Ok(ObjectAT(fields.value));
  }
}
