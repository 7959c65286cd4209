# type-checker, modelled in Dafny

`type-checker` checks JavaScript values against TypeScript-like type
constraints written as text, such as `number|string`,
`{ a: number; b?: string[] }` or `[boolean, 'x' | 2]`. This project models
the three stages of `src/index.ts` and proves properties of each:

1. **Tokenizing** (`splitAstriction`). A deterministic finite automaton (the
   `DeterministicFiniteAutomata` class) splits a text on break characters.
   It counts the open guards `{}`, `()`, `Array<>` and `[]` and the open
   quotes, so a break character inside a guard or a quoted literal does not
   split. Whitespace outside quotes is dropped. A backslash keeps the next
   character with it.
2. **Parsing** (`parseFormatAstriction`, `parseArrayAT`, `parseObjectAT`,
   `parseTupleAT`, `parseEnumerationAT`, `parseRawAstriction`). The parser
   turns each member of a union into nodes of an abstract type tree:
   primitives, arrays, objects with required or optional fields, tuples and
   literal enumerations. It rejects (throws `TypeError` on) anything it
   cannot read.
3. **Checking** (`typeChecker`, `checkPrimitiveAT`, `checkArrayAT`,
   `checkObjectAT`, `checkTupleAT`, `checkEnumerationAT`). These decide
   whether a value matches a tree, in structural mode or in exact mode. In
   exact mode an object may not have keys the type leaves out.

Each source file becomes one module:

| file | module | what it holds |
|---|---|---|
| `wrappers.dfy` | `Wrappers` | `Option` and `Result`. A thrown `TypeError` is the `TypeError` result. |
| `chars.dfy` | `Chars` | The escape table and invisible set; the identifier pattern; decimal numbers. |
| `automaton.dfy` | `Automaton` | The automaton as a `class` with a mutable `state`, and its validating constructor. |
| `tokenizer.dfy` | `Tokenizer` | The handlers and transition table; `splitAstriction` as a function and as the imperative loop over the automaton. |
| `tokenizer_facts.dfy` | `TokenizerFacts` | What the splitter keeps, and examples. |
| `values.dfy` | `Values` | JavaScript values. |
| `type_tree.dfy` | `TypeTree` | The abstract type tree; `Map.set` on an object's fields. |
| `classify.dfy` | `Classify` | The token classifiers. |
| `enumeration.dfy` | `Enumeration` | Literal tokens and the decoding loop. |
| `parser.dfy` | `Parser` | The mutually recursive parser and its loops. |
| `parser_facts.dfy` | `ParserFacts` | What the parser makes of chosen texts. |
| `checker.dfy` | `Checker` | The checker as predicates, and its loops as methods proved to compute them. |
| `vocabulary.dfy` | `Vocabulary` | The default and JSON keyword sets, and the default name validator. |

Where the source works by loops over mutable state, the model has a method
with a `while` loop, proved equal to a function:
- the automaton run, `Tokenizer.SplitAstrictionMethod` against `Tokenizer.SplitAstriction`;
- the enumeration decoder, `Enumeration.DecodeQuoted` against `Enumeration.Decode`;
- the member loops of `parseFormatAstriction` and `parseObjectAT`, and the `;`-stripping loop of `parseRawAstriction`;
- the four checking loops, each against its predicate in `Checker`.

Properties are then proved about the functions.

The automaton's handlers mutate variables their closure captures: the
guard counters, the current segment and the emitted segments. Here those
variables are a `Ctx` value. A handler is a function from a payload (the
text read, the counter index and the `Ctx`) to the next state and the new
`Ctx`. `Dfa.Next` returns that new `Ctx` as its result.

## Model

| member | source | states |
|---|---|---|
| Chars.EscapeLetter | src/index.ts:4-45 | Inverts the escape table: the letter it gives maps back to the character, and no entry maps to a character it gives no letter. |
| Chars.FirstIndex | src/index.ts:791 | `indexOf`: the first position holding the character, or -1 exactly when the character does not occur. |
| Chars.IdentifierMeans | src/index.ts:951-960 | The identifier pattern holds exactly when the first character is a letter, `_` or `$` and every later one is also allowed to be a digit. |
| Chars.IdentifierHasNoSyntax | src/index.ts:951-960 | No accepted name contains whitespace, `:`, `?`, a break character, a guard, a quote or a backslash. |
| Chars.NatToString | src/index.ts:654-657 | `String(i)` of an array index is a non-empty run of digits. |
| Chars.NatToStringValue | src/index.ts:654-657 | The digits of `String(n)` read back as `n`. |
| Chars.NatToStringIsNumber | src/index.ts:559-561 | `Number(String(n))` is `n`, so the spelling of a natural number is a numeric literal. |
| Chars.UnsignedRejectsSeparator | src/index.ts:559-561 | A `_` anywhere in the unsigned part makes it no decimal number. |
| Chars.DecimalRejectsSeparator | src/index.ts:559-561 | A text holding a numeric separator `_` is no number, as `Number('1_000')` is NaN. |
| Chars.NatToStringInjective | src/index.ts:654-657 | Distinct indices are distinct keys. |
| Automaton.LegalTableMeans | src/index.ts:122-141 | The constructor's size-and-membership check accepts exactly the tables whose rows all have the initial row's inputs. |
| Automaton.Dfa.constructor | src/index.ts:122-141 | The state set is the table's rows, the input set is the initial row's inputs, and the state is the initial state. |
| Automaton.Dfa.Next | src/index.ts:143-160 | An input outside the input set, or a current state without a row, throws and leaves the state. Otherwise the state becomes what the handler returns. |
| Automaton.Dfa.Force | src/index.ts:162-167 | A state outside the state set throws and leaves the state; any other becomes the current state. |
| Automaton.Create | src/index.ts:122-141 | The construction succeeds exactly when the table is legal, and then yields an automaton in the initial state over that table. |
| Tokenizer.TableIsLegal | src/index.ts:259-334 | The transition table of `splitAstriction` passes the constructor's check: three states, each with one handler per input. |
| Tokenizer.RowShape | src/index.ts:264-332 | Every row holds exactly the inputs 0 to 13, each with its handler. |
| Tokenizer.TableRows | src/index.ts:262-334 | Every state has its row in the table. |
| Tokenizer.Route | src/index.ts:410-450 | `next` chooses an input the table has, and a guard input always comes with a valid counter index. |
| Tokenizer.NextKeepsInv | src/index.ts:193-257 | One step keeps the invariant: the counters are non-negative and at most one quote kind is open; SPLIT has an empty buffer; NORMAL has a non-empty one; no emitted segment is empty. A segment is emitted only as the buffer, which is then cleared. |
| Tokenizer.FireKeepsInv | src/index.ts:193-257 | The same for one handler on one input. |
| Tokenizer.ScanFacts | src/index.ts:451-477 | Over the whole loop the invariant holds, the segments already emitted stay, and no new segment is longer than what was read. |
| Tokenizer.ScanEndsSplit | src/index.ts:397-482 | A text ending in a break character that is not whitespace, scanned without error and with every guard closed, ends in SPLIT with a segment emitted. |
| Tokenizer.SplitAstrictionAsWritten | src/index.ts:397-483 | The splitter with the end-of-input test of src/index.ts:463 as written: no returned segment is empty or longer than the input. |
| Tokenizer.SplitAstriction | src/index.ts:175-483 | No returned segment is empty or longer than the input. Unless the first break character is whitespace, success means at least one segment. |
| Tokenizer.ScanSkips | src/index.ts:458-461 | Whitespace outside quotes is skipped without a step of the automaton. |
| Tokenizer.ScanReads | src/index.ts:471-476 | One ordinary character, quoted whitespace or `Array<` is one step of `next`. |
| Tokenizer.ScanEscapes | src/index.ts:462-470 | A backslash before the end feeds itself and the next character as ordinary inputs. |
| Tokenizer.ScanUnterminated | src/index.ts:462-466 | A backslash at the end forces ERR. |
| Tokenizer.FeedKeyword | src/index.ts:398-403 | `nextKeyword` moves the automaton as the table's handler says, and returns the updated closure variables. |
| Tokenizer.FeedNext | src/index.ts:410-450 | `next` moves the automaton as the routed handler says. |
| Tokenizer.LoopStep | src/index.ts:451-477 | One pass of the loop body either forces ERR or advances, and leaves the rest of the scan unchanged. |
| Tokenizer.SplitAstrictionMethod | src/index.ts:175-483 | The loop over a freshly built automaton returns exactly `SplitAstriction`. |
| TokenizerFacts.TerminatedIsJoin | src/index.ts:397 | Writing the break character after every segment is joining them and appending one. |
| TokenizerFacts.ScanKeeps | src/index.ts:451-477 | The segments emitted, each followed by the break character, and then the buffer, are the characters the loop keeps. It drops whitespace outside quotes and keeps everything else. |
| TokenizerFacts.SplitThenJoin | src/index.ts:175-483 | Splitting on one break character and joining the segments with it gives back the input without its whitespace outside quotes. |
| TokenizerFacts.ScanOrdinary | src/index.ts:471-476 | A run of ordinary characters is appended to the buffer in NORMAL. |
| TokenizerFacts.ScanMember | src/index.ts:193-199 | A run closed by a break character with every guard closed is emitted as one segment. |
| TokenizerFacts.ScanClosedPair | src/index.ts:207-227 | An empty `{}`, `()` or `[]` pair counts up and back down and stays in the buffer. |
| TokenizerFacts.SplitsOrdinaryText | src/index.ts:175-483 | A text of ordinary characters is one segment. |
| TokenizerFacts.SplitsOrdinaryThenPair | src/index.ts:175-483 | Ordinary characters followed by an empty guard pair are one segment. |
| TokenizerFacts.SplitsTwoMembers | src/index.ts:175-483 | `number\|string` splits into `number` and `string`. |
| TokenizerFacts.QuoteProtectsBreak | src/index.ts:424-441 | A break character between double quotes does not split. |
| TokenizerFacts.RejectsEmptyText | src/index.ts:236-237 | The empty text throws, whatever the break character: the first thing read is a break in SPLIT. |
| TokenizerFacts.RejectsLeadingBreak | src/index.ts:236-237 | A text that starts with the break character throws, whatever follows: the first thing read is a break in SPLIT. |
| TokenizerFacts.RejectsTrailingBreak | src/index.ts:236-237 | A run of ordinary characters followed by any of the break characters throws: the appended first break character closes an empty segment. |
| TokenizerFacts.RejectsEmptyMembers | src/index.ts:236-237 | The empty text, a lone break and a break at either end throw. |
| TokenizerFacts.NextOpens | src/index.ts:207-245 | An opening guard read in SPLIT, or in NORMAL with no counter negative, counts its own level up, is appended to the buffer and leads to NORMAL. |
| TokenizerFacts.NextCloses | src/index.ts:218-248 | A closing guard read in NORMAL with its own counter positive counts it down and is appended; with its counter at zero, or in SPLIT, it leads to ERR. |
| TokenizerFacts.ScanUnopenedClose | src/index.ts:218-228 | A closing guard read while its counter is zero ends the whole scan in ERR. |
| TokenizerFacts.RejectsUnopenedClose | src/index.ts:218-248 | A text that starts with any closing guard `}`, `)`, `>` or `]` throws, whatever follows. |
| TokenizerFacts.ScanOpenAt | src/index.ts:207-245 | Reading an opening guard in the loop counts its level up and continues in NORMAL. |
| TokenizerFacts.ScanGroup | src/index.ts:207-228 | An opening guard, ordinary characters and the closing guard leave the counters as they were and append the whole group to the buffer. |
| TokenizerFacts.RejectsExtraClose | src/index.ts:218-228 | `{a:number}}` throws: the second `}` finds its counter at zero. |
| TokenizerFacts.OpenAtEnd | src/index.ts:479-481 | The appended break character read with a counter open is content, and the open counter makes the splitter throw. |
| TokenizerFacts.RejectsUnclosedGroup | src/index.ts:479-481 | A guard opened twice and closed once around ordinary characters throws, since a counter is still open at the end. |
| TokenizerFacts.RejectsExtraOpen | src/index.ts:479-481 | `{{a:number}` throws. |
| TokenizerFacts.TrailingBackslashDropsSegment | src/index.ts:463 | As written, `a\` splits into no segments, which join to the empty text rather than `a\`; the corrected splitter rejects it. |
| TokenizerFacts.AsWrittenEscapesBreak | src/index.ts:463 | As written, any run of ordinary characters followed by a backslash splits into no segments at all. |
| TokenizerFacts.TrailingBackslashRejected | src/index.ts:463 | With the corrected end-of-input test, the same text throws. |
| TokenizerFacts.ScanBoundsAgree | src/index.ts:462-466 | The two end-of-input bounds scan alike unless a backslash stands right before the appended break character. |
| TokenizerFacts.AsWrittenAgrees | src/index.ts:397-483 | On every input that does not end in a backslash, the splitter as written and the corrected one return the same result. |
| Values.GetIndex | src/index.ts:654-657 | An array has its index keys as own properties, and reading one gives the item. |
| Values.Get | src/index.ts:698-700 | `val[key]` of an own property: the object's entry, an array's length, or the item at the index the key spells. |
| TypeTree.FromKeyword | src/index.ts:528-530 | A token names a primitive only if it is that primitive's keyword. |
| TypeTree.KeywordRoundTrip | src/index.ts:528-530 | Every keyword names its own primitive. |
| TypeTree.FindField | src/index.ts:802-805 | The Map's lookup: the position of the entry with the name, or -1 exactly when there is none. |
| TypeTree.SetField | src/index.ts:802-805 | `Map.set` replaces an existing entry in place or appends a new one. |
| TypeTree.SetFieldKeepsMap | src/index.ts:802-805 | After `set`, names stay distinct; the new entry is found under its name; every other name finds what it found before; the size grows by at most one. |
| Classify.ShapesOfContent | src/index.ts:525-551 | Each pattern accepts its delimiters around any content, requiring content exactly where the pattern has `+`. |
| Classify.ContentOfShapes | src/index.ts:525-551 | Every token a pattern accepts is its delimiters around the slice the parser takes. |
| Classify.ArrayAndTupleOverlap | src/index.ts:534-545 | `[a][]` is both a literal array and a tuple; the parser reads it as an array. |
| Classify.KeywordsAreNotShapes | src/index.ts:525-564 | No keyword has the shape of another token kind. |
| Enumeration.Decode | src/index.ts:830-846 | Decoding never lengthens the text. |
| Enumeration.DecodeEscape | src/index.ts:830-846 | Decoding inverts escaping, wherever the escaped text stands. |
| Enumeration.ParseEnumeration | src/index.ts:823-858 | Success exactly for a quoted token that decodes, `true`, `false` or a number. A string literal is the decoding, a boolean its keyword, a number the value of the token. |
| Enumeration.QuotedRoundTrip | src/index.ts:823-846 | A double-quoted escaped string reads back as that string. |
| Enumeration.NumberRoundTrip | src/index.ts:851-852 | The decimal spelling of a natural number reads back as that number. |
| Enumeration.DecodeQuoted | src/index.ts:830-846 | The decoding loop computes `Decode`, including the throw on a trailing backslash. |
| Enumeration.ParseEnumerationAT | src/index.ts:823-858 | The method computes `ParseEnumeration`. |
| Parser.SplitField | src/index.ts:791-801 | A member read as a field never yields a type text as long as the member, and yields a name the validator accepts. |
| Parser.SplitFieldMeans | src/index.ts:791-801 | `name:type` and `name?:type` read back as name, flag and type exactly when the name has no `:`, passes the validator, and does not end in `?` unless marked optional. |
| Parser.FieldWithoutColon | src/index.ts:793-795 | A member without `:` is rejected. |
| Parser.ParseFormat | src/index.ts:860-886 | A parse that succeeds is a non-empty union of well-formed nodes, and its text splits on `\|`. |
| Parser.ParseMembers | src/index.ts:862-881 | Every member contributes at least one node. |
| Parser.ParseMember | src/index.ts:863-880 | A member parses only if it has one of the six token shapes. |
| Parser.ParseArray | src/index.ts:740-761 | An array node holds exactly the tree of the text before `[]`, or between `Array<` and `>`. |
| Parser.ParseObject | src/index.ts:765-811 | `{}` is the empty object; any other object that parses has fields, all well-formed with distinct names. What the fields are is stated by `ObjectFacts.ObjectMeans`. |
| Parser.ParseFields | src/index.ts:790-806 | Setting the members keeps the names distinct and every field well-formed. |
| Parser.SetMember | src/index.ts:791-805 | After one member is set, its name holds its flag and the tree of its type text. |
| Parser.ParseTuple | src/index.ts:813-822 | A tuple parses exactly when its inside splits on `,` and every member parses; then it has one slot per member, and slot k holds the tree of member k. |
| Parser.ParseSlots | src/index.ts:819 | Succeeds exactly when every member parses; then slot k holds the tree of member k. |
| Parser.TrimSemicolons | src/index.ts:887-895 | The result is a prefix that does not end in `;`, and everything cut off is `;`. |
| Parser.TrailingSemicolonsIgnored | src/index.ts:887-895 | Appending semicolons to a constraint does not change how it parses. |
| Parser.ParseRawAstriction | src/index.ts:887-895 | The loop strips the trailing semicolons and parses the rest. |
| Parser.ParseMembersLoop | src/index.ts:862-881 | The loop over the members computes `ParseMembers`. |
| Parser.ParseFormatAstriction | src/index.ts:860-886 | The method computes `ParseFormat`. |
| Parser.SetMemberStep | src/index.ts:791-805 | One pass of parseObjectAT's loop computes `SetMember`. |
| Parser.SetMembers | src/index.ts:790-806 | parseObjectAT's loop computes `ParseFields`. |
| Parser.ParseObjectAT | src/index.ts:765-811 | The method computes `ParseObject`. |
| ObjectFacts.MemberField | src/index.ts:791-805 | The entry a member sets: the name and flag the member is read as, and the tree of its type text. |
| ObjectFacts.SetMemberIs | src/index.ts:791-805 | One turn of the loop sets the member's entry into the Map when the member parses, and throws otherwise. |
| ObjectFacts.FieldsSucceed | src/index.ts:790-806 | The loop gets through every member exactly when each of them parses. |
| ObjectFacts.FieldsKeepOthers | src/index.ts:790-806 | A name no member mentions keeps the entry it had, or stays absent. |
| ObjectFacts.LastMemberWins | src/index.ts:802-805 | The last member with a given name decides that name's flag and tree. |
| ObjectFacts.EveryMemberSet | src/index.ts:790-806 | Every member's name is a key of the result. |
| ObjectFacts.OnlyMemberNames | src/index.ts:790-806 | Every key of the result was there before or is the name of some member. |
| ObjectFacts.ObjectMeans | src/index.ts:765-811 | A non-empty object parses exactly when its body splits and every member parses; then the keys are exactly the members' names, and each holds the flag and tree of the last member with that name. |
| ObjectFacts.UnparsableMemberRejected | src/index.ts:790-805 | A member that does not parse makes the whole object throw. |
| ObjectFacts.MemberWithoutColonRejected | src/index.ts:791-795 | A member without `:` makes the whole object throw. |
| ObjectFacts.BareBody | src/index.ts:781-789 | A body that does not end in a separator is taken whole. |
| ObjectFacts.SeparatedBody | src/index.ts:787-789 | One trailing `,` or `;` is cut from the body. |
| ObjectFacts.TrailingSeparatorDropped | src/index.ts:787-789 | `{B,}` and `{B;}` parse exactly as `{B}` when `B` does not end in a separator. |
| ObjectFacts.DoubleSeparatorRejected | src/index.ts:787-790 | Only one separator is cut, so `{a:number;;}` throws. |
| ParserFacts.ParenthesesFlattened | src/index.ts:863-864 | A parenthesised member is the union inside it. |
| ParserFacts.SingleMember | src/index.ts:860-886 | A text that is its own only member parses as that member. |
| ParserFacts.KeywordParses | src/index.ts:865-869 | A keyword the options allow is one primitive node. |
| ParserFacts.UnconfiguredKeywordRejected | src/index.ts:865-880 | A keyword the options leave out is rejected. |
| ParserFacts.KeywordArrayParses | src/index.ts:740-761 | `T[]` for an allowed keyword is an array of that primitive. |
| ParserFacts.EmptyObjectParses | src/index.ts:784-786 | `{}` is the object without fields. |
| ParserFacts.EmptyTupleRejected | src/index.ts:813-822 | `[]` is no array and, as a tuple, has an empty inside, which the splitter rejects. |
| ParserFacts.UnionParses | src/index.ts:860-886 | `number\|string` is the two primitives in order. |
| Checker.NameSet | src/index.ts:643-647 | Every field's name is in the set, and only those. |
| Checker.TypeCheckMeans | src/index.ts:897-926 | A value matches a union exactly when some node accepts it. |
| Checker.CheckItemsMeans | src/index.ts:627-637 | An array matches exactly when every item matches the element tree. |
| Checker.CheckSlotsMeans | src/index.ts:707-725 | A tuple's items match exactly when each matches its own slot. |
| Checker.CheckFieldsMeans | src/index.ts:687-703 | Every field the value owns matches its tree; absent fields are skipped. |
| Checker.ArrayMeans | src/index.ts:627-637 | An array node accepts exactly the arrays whose items all match. |
| Checker.TupleMeans | src/index.ts:707-725 | A tuple node accepts exactly the arrays of its length whose items match position by position. |
| Checker.ObjectMeans | src/index.ts:641-703 | An object node accepts exactly the arrays and objects that have every required key and, in exact mode, no other key, and whose present fields match. |
| Checker.ExactImpliesStructural | src/index.ts:651-686 | Exact mode is stricter: what it accepts, structural mode accepts too, at every depth. |
| Checker.ExactNodeImpliesStructural | src/index.ts:651-686 | The same for one node. |
| Checker.ExactItemsImplyStructural | src/index.ts:627-637 | The same for an array's items. |
| Checker.ExactSlotsImplyStructural | src/index.ts:707-725 | The same for a tuple's items. |
| Checker.ExactFieldsImplyStructural | src/index.ts:687-703 | The same for an object's fields. |
| Checker.ExactIsStricter | src/index.ts:665-686 | Strictly stricter: `{ a: number }` accepts `{a: 1, b: 1}` structurally but not exactly. |
| Checker.OptionalFieldExamples | src/index.ts:651-703 | `{ a: number; b?: string }` accepts `{a: 1}` and `{a: 1, b: '1'}` in both modes, and rejects `{a: 1, b: 1}`. |
| Checker.EnumerationExamples | src/index.ts:730-732 | `1 \| '2'` accepts 1 and not 2; `false` accepts false and not true. |
| Checker.TypeChecker | src/index.ts:897-926 | The loop over the union computes `TypeCheck`. |
| Checker.CheckArrayAT | src/index.ts:627-637 | The loop over the items computes the array case of `CheckNode`. |
| Checker.CheckTupleAT | src/index.ts:707-725 | The length test and the loop over positions compute the tuple case of `CheckNode`. |
| Checker.CheckObjectAT | src/index.ts:641-703 | The visited-key bookkeeping and the property loop compute `CheckObject`. |
| Checker.RequiredLoop | src/index.ts:651-664 | The structural-mode loop finds exactly whether every required field is a key. |
| Checker.MarkLoop | src/index.ts:665-686 | The exact-mode loop finds whether every required field is a key, and marks exactly the keys some field names. |
| Checker.CheckPropertiesLoop | src/index.ts:687-703 | The last loop computes `CheckFields`. |
| Vocabulary.DefaultCheckVariableName | src/index.ts:951-960 | An accepted name is non-empty, starts with no digit and holds no constraint syntax; every name the pattern describes is accepted. |
| Vocabulary.JsonVocabulary | src/index.ts:929-950 | The default set is every keyword; the JSON set leaves out exactly `undefined`, `symbol` and `bigint`. Those keywords therefore parse with the default options and are rejected with the JSON ones. |

## Left out

- The wrappers at src/index.ts:972-1095 (`checkAstrictionString`, `createCheck`, `withCheck`, `checkAstriction`, `withCheckJSON`, `checkJSONAstriction`) are not part of this model. They fill in default options; throw when the constraint is not a string or `checkVariableName` is not a function (src/index.ts:1016-1028, 1059-1071); rethrow the parser's `TypeError` with a message naming the constraint (src/index.ts:1036, 1080); and coerce `structural` with `Boolean(...)` (src/index.ts:1004). The type checks and the coercion have no counterpart because Dafny parameters are typed, and a thrown error of any message is the `TypeError` result here. `Vocabulary.DefaultOptions`, `Vocabulary.JsonOptions` and `Vocabulary.DefaultStructural` are the options they pass.
- `Number(v)` handles only decimal notation with an optional sign. Leading or trailing whitespace, the empty text (which is 0), exponents, hexadecimal, binary and octal forms and `Infinity` are not modelled, because numbers are exact reals here. Numeric separators such as `1_000` are rejected by both `Number(v)` and `Chars.DecimalNumber` (`Chars.DecimalRejectsSeparator`). For the same reason NaN, infinities and negative zero are not values, and `val === node.type` on numbers is equality of reals.
- `Values.Value` has no functions, boxed primitives, dates, maps or other host objects, and no symbol-keyed or non-enumerable properties except an array's `length`. This matters for `Object.prototype.toString` tags and `instanceof Object`, which are decided only for the values represented.
- The automaton's transition entries can be a state, a handler, or a state plus callback. Only the handler form, which `splitAstriction` uses, is modelled. A handler is a pure function returning the next state and the updated closure variables. `payload ?? null` is not modelled.
- `Tokenizer.SplitAstriction`: its contract does not promise a segment when the first break character is whitespace. Such a break character is skipped outside quotes and never closes the last segment. No caller in the core passes one.
- Inside quotes, break characters and whitespace are content, but, as in the source, `{`, `(`, `[` and `Array<` still count as guards.
- The `else { throw }` branch of `typeChecker` and the unreachable `default` branch of `checkPrimitiveAT` cannot be taken with the node and primitive datatypes, so they have no counterpart.
- `parseEnumerationAT` starts its result at NaN, which only an input rejected by `isEnumerationAstriction` could leave. That case throws first, so the model has no NaN literal.
- Tokenizer.SplitAstrictionMethod, Parser.ParseFormat, Parser.ParseObject, Parser.ParseTuple, Parser.ParseFormatAstriction and Parser.ParseObjectAT use the corrected splitter of "## Findings". On a text that ends in an unescaped backslash they throw, where the source drops the last segment (for `number|b\` the source gives one `number` node). On every text that does not end in a backslash the two splitters agree (`TokenizerFacts.AsWrittenAgrees`).
- Unicode beyond single UTF-16 code units is not modelled: each `char` is one position of the JavaScript string.

## Findings

| source | as written | input that shows it | evidently intended | confidence | as-written member | corrected member |
|---|---|---|---|---|---|---|
| src/index.ts:463 | The end-of-input test for a backslash is made on the text with the break character appended. An unescaped backslash that ends the input therefore escapes that break character, and the last segment is silently dropped. | `splitAstriction('a\\', ['\|'])` returns `[]`. Likewise `number\|b\` parses as `number`, and `{a:number;b:string\;}` as `{a:number}`. | A backslash that ends the input is rejected, like one at the very end of the scanned text, so every kept character is in some segment. | not executed | Tokenizer.SplitAstrictionAsWritten, TokenizerFacts.TrailingBackslashDropsSegment, TokenizerFacts.AsWrittenAgrees | Tokenizer.SplitAstriction, TokenizerFacts.SplitThenJoin |
