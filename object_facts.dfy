/** What parseObjectAT makes of the members of an object: it accepts the
    object exactly when every member parses; every member's name is a key,
    and a name holds the flag and tree of the last member that names it;
    no other key appears. One trailing `,` or `;` is dropped, a second one
    makes the splitter refuse the body. */
module ObjectFacts {
  import opened Wrappers
  import opened Chars
  import opened TypeTree
  import opened Classify
  import opened Tokenizer
  import opened TokenizerFacts
  import opened Parser

  /** A member is `name:type` or `name?:type` with an accepted name and a
      type text that parses. */
  predicate MemberParses(structure: string, opt: Options) {
    var split := SplitField(structure, opt.checkVariableName);
    split.Some? && ParseFormat(split.value.2, opt).Ok?
  }

  /** The entry a member sets in the Map. */
  function MemberField(structure: string, opt: Options): (f: Field)
    requires MemberParses(structure, opt)
    ensures SplitField(structure, opt.checkVariableName) == Some((f.name, f.isRequired, SplitField(structure, opt.checkVariableName).value.2))
    ensures Ok(f.tree) == ParseFormat(SplitField(structure, opt.checkVariableName).value.2, opt)
  {
    var (name, isRequired, ty) := SplitField(structure, opt.checkVariableName).value;
    Field(name, ParseFormat(ty, opt).value, isRequired)
  }

  predicate AllParse(structures: seq<string>, opt: Options) {
    forall k | 0 <= k < |structures| :: MemberParses(structures[k], opt)
  }

  /** Some member names `name`. */
  predicate NameOccurs(structures: seq<string>, name: string, opt: Options)
    requires AllParse(structures, opt)
  {
    exists k | 0 <= k < |structures| :: MemberField(structures[k], opt).name == name
  }

  /** No member after member `k` has its name. */
  predicate LastOfName(structures: seq<string>, k: nat, opt: Options)
    requires AllParse(structures, opt) && k < |structures|
  {
    forall j | k < j < |structures| :: MemberField(structures[j], opt).name != MemberField(structures[k], opt).name
  }

  /** The fields hold `f` under its name. */
  predicate HoldsField(fields: seq<Field>, f: Field) {
    FindField(fields, f.name) >= 0 && fields[FindField(fields, f.name)] == f
  }

  /** What ParseFields asks of the fields set so far. */
  predicate FieldsOk(acc: seq<Field>, opt: Options) {
    DistinctNames(acc) && forall k | 0 <= k < |acc| :: WellFormedField(acc[k], opt)
  }

  predicate Bounded(structures: seq<string>, bound: nat) {
    forall k | 0 <= k < |structures| :: |structures[k]| <= bound
  }

  /** One turn of the loop: the member's entry set into the Map, or a throw. */
  lemma SetMemberIs(structure: string, acc: seq<Field>, opt: Options)
    requires FieldsOk(acc, opt)
    ensures MemberParses(structure, opt) ==> SetMember(structure, acc, opt) == Ok(SetField(acc, MemberField(structure, opt)))
    ensures !MemberParses(structure, opt) ==> SetMember(structure, acc, opt) == TypeError
  {
  }

  /** The members after the first. */
  lemma RestParse(structures: seq<string>, bound: nat, opt: Options)
    requires structures != [] && Bounded(structures, bound)
    ensures Bounded(structures[1..], bound)
    ensures AllParse(structures, opt) <==> MemberParses(structures[0], opt) && AllParse(structures[1..], opt)
  {
    if MemberParses(structures[0], opt) && AllParse(structures[1..], opt) {
      forall k | 0 <= k < |structures| ensures MemberParses(structures[k], opt) {
        if k > 0 { assert structures[k] == structures[1..][k - 1]; }
      }
    }
  }

  /** The loop of parseObjectAT gets through every member exactly when each
      of them parses. */
  lemma {:induction false} FieldsSucceed(structures: seq<string>, bound: nat, acc: seq<Field>, opt: Options)
    requires Bounded(structures, bound) && FieldsOk(acc, opt)
    ensures ParseFields(structures, bound, acc, opt).Ok? <==> AllParse(structures, opt)
    decreases |structures|
  {
    if structures != [] {
      RestParse(structures, bound, opt);
      SetMemberIs(structures[0], acc, opt);
      if MemberParses(structures[0], opt) {
        var next := SetMember(structures[0], acc, opt);
        FieldsSucceed(structures[1..], bound, next.value, opt);
      }
    }
  }

  /** A name no member mentions keeps whatever entry it had, or stays absent. */
  lemma {:induction false} FieldsKeepOthers(structures: seq<string>, bound: nat, acc: seq<Field>, opt: Options, name: string)
    requires Bounded(structures, bound) && FieldsOk(acc, opt) && AllParse(structures, opt)
    requires !NameOccurs(structures, name, opt)
    ensures ParseFields(structures, bound, acc, opt).Ok?
    ensures var r := ParseFields(structures, bound, acc, opt).value;
      && (FindField(r, name) == -1 <==> FindField(acc, name) == -1)
      && (FindField(acc, name) >= 0 ==> r[FindField(r, name)] == acc[FindField(acc, name)])
    decreases |structures|
  {
    FieldsSucceed(structures, bound, acc, opt);
    if structures != [] {
      RestParse(structures, bound, opt);
      SetMemberIs(structures[0], acc, opt);
      var f := MemberField(structures[0], opt);
      assert f.name != name;
      var next := SetField(acc, f);
      SetFieldKeepsMap(acc, f, name);
      assert !NameOccurs(structures[1..], name, opt) by {
        forall k | 0 <= k < |structures[1..]| ensures MemberField(structures[1..][k], opt).name != name {
          assert structures[1..][k] == structures[k + 1];
        }
      }
      FieldsKeepOthers(structures[1..], bound, next, opt, name);
    }
  }

  /** The first member sets its entry; what the later ones do to it. */
  lemma FirstMemberSet(structures: seq<string>, bound: nat, acc: seq<Field>, opt: Options)
    requires structures != [] && Bounded(structures, bound) && FieldsOk(acc, opt) && AllParse(structures, opt)
    ensures Bounded(structures[1..], bound) && AllParse(structures[1..], opt)
    ensures var next := SetField(acc, MemberField(structures[0], opt));
      && FieldsOk(next, opt)
      && ParseFields(structures, bound, acc, opt) == ParseFields(structures[1..], bound, next, opt)
      && FindField(next, MemberField(structures[0], opt).name) >= 0
      && next[FindField(next, MemberField(structures[0], opt).name)] == MemberField(structures[0], opt)
  {
    RestParse(structures, bound, opt);
    SetMemberIs(structures[0], acc, opt);
    var f := MemberField(structures[0], opt);
    SetFieldKeepsMap(acc, f, f.name);
  }

  /** Member 0 is the last with its name: no later member names it. */
  lemma FirstIsLast(structures: seq<string>, opt: Options)
    requires structures != [] && AllParse(structures, opt) && LastOfName(structures, 0, opt)
    ensures AllParse(structures[1..], opt)
    ensures !NameOccurs(structures[1..], MemberField(structures[0], opt).name, opt)
  {
    var rest := structures[1..];
    forall j | 0 <= j < |rest| ensures MemberParses(rest[j], opt) && MemberField(rest[j], opt).name != MemberField(structures[0], opt).name {
      assert rest[j] == structures[j + 1];
    }
  }

  /** Member `k` is still the last with its name among the members after the first. */
  lemma LastInRest(structures: seq<string>, opt: Options, k: nat)
    requires 0 < k < |structures| && AllParse(structures, opt) && LastOfName(structures, k, opt)
    ensures AllParse(structures[1..], opt) && structures[1..][k - 1] == structures[k]
    ensures LastOfName(structures[1..], k - 1, opt)
  {
    var rest := structures[1..];
    forall j | 0 <= j < |rest| ensures MemberParses(rest[j], opt) {
      assert rest[j] == structures[j + 1];
    }
    forall j | k - 1 < j < |rest| ensures MemberField(rest[j], opt).name != MemberField(rest[k - 1], opt).name {
      assert rest[j] == structures[j + 1];
    }
  }

  /** The first member, if no later one shares its name, decides its entry. */
  lemma FirstMemberWins(structures: seq<string>, bound: nat, acc: seq<Field>, opt: Options)
    requires structures != [] && Bounded(structures, bound) && FieldsOk(acc, opt) && AllParse(structures, opt)
    requires LastOfName(structures, 0, opt)
    ensures ParseFields(structures, bound, acc, opt).Ok?
    ensures HoldsField(ParseFields(structures, bound, acc, opt).value, MemberField(structures[0], opt))
  {
    FirstMemberSet(structures, bound, acc, opt);
    var next := SetField(acc, MemberField(structures[0], opt));
    FirstIsLast(structures, opt);
    FieldsKeepOthers(structures[1..], bound, next, opt, MemberField(structures[0], opt).name);
  }

  /** The last member with a name decides that name's entry. */
  lemma {:induction false} LastMemberWins(structures: seq<string>, bound: nat, acc: seq<Field>, opt: Options, k: nat)
    requires Bounded(structures, bound) && FieldsOk(acc, opt) && AllParse(structures, opt)
    requires k < |structures| && LastOfName(structures, k, opt)
    ensures ParseFields(structures, bound, acc, opt).Ok?
    ensures HoldsField(ParseFields(structures, bound, acc, opt).value, MemberField(structures[k], opt))
    decreases |structures|, 1
  {
    if k == 0 {
      FirstMemberWins(structures, bound, acc, opt);
    } else {
      LaterMemberWins(structures, bound, acc, opt, k);
    }
  }

  /** A later member: the first one set its entry, and the rest decide. */
  lemma {:induction false} LaterMemberWins(structures: seq<string>, bound: nat, acc: seq<Field>, opt: Options, k: nat)
    requires Bounded(structures, bound) && FieldsOk(acc, opt) && AllParse(structures, opt)
    requires 0 < k < |structures| && LastOfName(structures, k, opt)
    ensures ParseFields(structures, bound, acc, opt).Ok?
    ensures HoldsField(ParseFields(structures, bound, acc, opt).value, MemberField(structures[k], opt))
    decreases |structures|, 0
  {
    FirstMemberSet(structures, bound, acc, opt);
    var next := SetField(acc, MemberField(structures[0], opt));
    var rest := structures[1..];
    LastInRest(structures, opt, k);
    LastMemberWins(rest, bound, next, opt, k - 1);
    assert ParseFields(structures, bound, acc, opt) == ParseFields(rest, bound, next, opt);
    assert MemberField(rest[k - 1], opt) == MemberField(structures[k], opt);
  }

  /** Every member's name is a key of the result. */
  lemma {:induction false} EveryMemberSet(structures: seq<string>, bound: nat, acc: seq<Field>, opt: Options, k: nat)
    requires Bounded(structures, bound) && FieldsOk(acc, opt) && AllParse(structures, opt) && k < |structures|
    ensures ParseFields(structures, bound, acc, opt).Ok?
    ensures FindField(ParseFields(structures, bound, acc, opt).value, MemberField(structures[k], opt).name) >= 0
    decreases |structures| - k
  {
    FieldsSucceed(structures, bound, acc, opt);
    if LastOfName(structures, k, opt) {
      LastMemberWins(structures, bound, acc, opt, k);
    } else {
      var j :| k < j < |structures| && MemberField(structures[j], opt).name == MemberField(structures[k], opt).name;
      EveryMemberSet(structures, bound, acc, opt, j);
    }
  }

  lemma OccursInRest(structures: seq<string>, opt: Options, name: string)
    requires structures != [] && AllParse(structures, opt) && AllParse(structures[1..], opt)
    requires NameOccurs(structures[1..], name, opt)
    ensures NameOccurs(structures, name, opt)
  {
    var j :| 0 <= j < |structures[1..]| && MemberField(structures[1..][j], opt).name == name;
    assert structures[1..][j] == structures[j + 1];
  }

  /** Every key of the result was there before or is the name of a member. */
  lemma {:induction false} OnlyMemberNames(structures: seq<string>, bound: nat, acc: seq<Field>, opt: Options, name: string)
    requires Bounded(structures, bound) && FieldsOk(acc, opt) && AllParse(structures, opt)
    ensures ParseFields(structures, bound, acc, opt).Ok?
    ensures FindField(ParseFields(structures, bound, acc, opt).value, name) >= 0 ==>
      FindField(acc, name) >= 0 || NameOccurs(structures, name, opt)
    decreases |structures|
  {
    FieldsSucceed(structures, bound, acc, opt);
    if structures != [] {
      FirstMemberSet(structures, bound, acc, opt);
      var f := MemberField(structures[0], opt);
      var next := SetField(acc, f);
      var rest := structures[1..];
      OnlyMemberNames(rest, bound, next, opt, name);
      SetFieldKeepsMap(acc, f, name);
      if NameOccurs(rest, name, opt) {
        OccursInRest(structures, opt, name);
      }
    }
  }

  /** parseObjectAT on a non-empty body: the object is accepted exactly when
      the splitter accepts the body and every member parses; then every
      member's name is a key holding, if the member is the last with that
      name, that member's flag and tree, and every key is some member's
      name. */
  lemma ObjectMeans(t: string, opt: Options)
    requires IsObjectShape(t) && |t| > 2
    ensures var structures := SplitAstriction(ObjectBody(t), [',', ';']);
      ParseObject(t, opt).Ok? <==> structures.Ok? && AllParse(structures.value, opt)
    ensures ParseObject(t, opt).Ok? ==>
      var ss := SplitAstriction(ObjectBody(t), [',', ';']).value;
      var fields := ParseObject(t, opt).value.fields;
      && (forall k | 0 <= k < |ss| :: FindField(fields, MemberField(ss[k], opt).name) >= 0)
      && (forall k | 0 <= k < |ss| && LastOfName(ss, k, opt) ::
            fields[FindField(fields, MemberField(ss[k], opt).name)] == MemberField(ss[k], opt))
      && (forall j | 0 <= j < |fields| :: NameOccurs(ss, fields[j].name, opt))
  {
    var body := ObjectBody(t);
    var structures := SplitAstriction(body, [',', ';']);
    if structures.Ok? {
      var ss := structures.value;
      FieldsSucceed(ss, |body|, [], opt);
      if AllParse(ss, opt) {
        var fields := ParseFields(ss, |body|, [], opt).value;
        assert ParseObject(t, opt) == Ok(ObjectAT(fields));
        forall k | 0 <= k < |ss| ensures FindField(fields, MemberField(ss[k], opt).name) >= 0 {
          EveryMemberSet(ss, |body|, [], opt, k);
        }
        forall k | 0 <= k < |ss| && LastOfName(ss, k, opt)
          ensures fields[FindField(fields, MemberField(ss[k], opt).name)] == MemberField(ss[k], opt)
        {
          LastMemberWins(ss, |body|, [], opt, k);
        }
        forall j | 0 <= j < |fields| ensures NameOccurs(ss, fields[j].name, opt) {
          OnlyMemberNames(ss, |body|, [], opt, fields[j].name);
        }
      }
    }
  }

  /** A member that does not parse makes the whole object throw. */
  lemma UnparsableMemberRejected(t: string, opt: Options, k: nat)
    requires IsObjectShape(t) && |t| > 2
    requires SplitAstriction(ObjectBody(t), [',', ';']).Ok?
    requires k < |SplitAstriction(ObjectBody(t), [',', ';']).value|
    requires !MemberParses(SplitAstriction(ObjectBody(t), [',', ';']).value[k], opt)
    ensures ParseObject(t, opt) == TypeError
  {
    ObjectMeans(t, opt);
  }

  /** In particular a member without `:` makes it throw. */
  lemma MemberWithoutColonRejected(t: string, opt: Options, k: nat)
    requires IsObjectShape(t) && |t| > 2
    requires SplitAstriction(ObjectBody(t), [',', ';']).Ok?
    requires k < |SplitAstriction(ObjectBody(t), [',', ';']).value|
    requires var m := SplitAstriction(ObjectBody(t), [',', ';']).value[k]; forall j | 0 <= j < |m| :: m[j] != ':'
    ensures ParseObject(t, opt) == TypeError
  {
    FieldWithoutColon(SplitAstriction(ObjectBody(t), [',', ';']).value[k], opt.checkVariableName);
    UnparsableMemberRejected(t, opt, k);
  }

  lemma BareBody(b: string)
    requires b != "" && b[|b| - 1] != ',' && b[|b| - 1] != ';'
    ensures IsObjectShape("{" + b + "}") && |"{" + b + "}"| > 2 && ObjectBody("{" + b + "}") == b
  {
    var t := "{" + b + "}";
    assert t[1..|t| - 1] == b;
  }

  lemma SeparatedBody(b: string, sep: char)
    requires b != "" && (sep == ',' || sep == ';')
    ensures IsObjectShape("{" + b + [sep] + "}") && ObjectBody("{" + b + [sep] + "}") == b
  {
    var t := "{" + b + [sep] + "}";
    var buffer := t[1..|t| - 1];
    assert buffer == b + [sep];
    assert buffer[..|buffer| - 1] == b;
  }

  /** One trailing `,` or `;` after the members is dropped. */
  lemma TrailingSeparatorDropped(b: string, sep: char, opt: Options)
    requires b != "" && b[|b| - 1] != ',' && b[|b| - 1] != ';' && (sep == ',' || sep == ';')
    ensures ParseObject("{" + b + [sep] + "}", opt) == ParseObject("{" + b + "}", opt)
  {
    BareBody(b);
    SeparatedBody(b, sep);
  }

  /** A second trailing separator is not dropped: `{a:number;;}` throws,
      because the body `a:number;` ends with an empty member. */
  lemma DoubleSeparatorRejected(t: string, opt: Options)
    requires t == "{a:number;;}"
    ensures ParseObject(t, opt) == TypeError
  {
    var m := "a:number";
    assert t[1..|t| - 1] == "a:number;;";
    assert ObjectBody(t) == m + [';'];
    forall k | 0 <= k < |m| ensures Ordinary(m[k], [',', ';']) {
      assert m[k] in "a:number";
    }
    RejectsTrailingBreak(m, [',', ';'], ';');
  }
}
