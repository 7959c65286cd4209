/** splitAstriction of src/index.ts: a guard-aware tokenizer. It splits a
    constraint string on break characters, but only where no guard pair
    (`{}`, `()`, `Array<>`, `[]`, `""`, `''`) is open; it drops whitespace
    outside quotes and passes `\` with the following character through
    unchanged. It is driven by a three-state automaton whose transition
    table holds the handlers below.

    `Scan` is the character loop as a function; `SplitAstriction` is the
    tokenizer's result, and `SplitAstrictionMethod` runs the same loop
    imperatively over a `Dfa` object and is proved to return it. */
module Tokenizer {
  import opened Wrappers
  import opened Chars
  import Automaton

  /** STATE.NORMAL (inside a segment), STATE.SPLIT (at a segment boundary), STATE.ERR. */
  datatype State = Normal | Split | Err

  /** GUARD_CHARACTER: the opening and closing text of every guard pair. */
  const Guards: seq<(string, string)> :=
    [("{", "}"), ("(", ")"), ("Array<", ">"), ("[", "]"), ("\"", "\""), ("'", "'")]
  const GuardCount: nat := 6
  const DoubleQuoteLevel: nat := 4
  const SingleQuoteLevel: nat := 5

  /** The input alphabet is 0 .. InputCount - 1: 0 is a break character,
      1 + 2k opens guard k, 2 + 2k closes it, and the last input is any
      other character. */
  const InputCount: nat := 2 + 2 * GuardCount
  const BreakInput: nat := 0
  const OtherInput: nat := InputCount - 1

  /** How a guard text is fed to the automaton: a guard whose two sides
      differ has one input per side; a same-character guard (a quote) has
      both, and the parity of its counter chooses between them. */
  datatype Wrap =
    | Nq(inputIndex: nat, levelIndex: nat)
    | Eq(inputLeftIndex: nat, inputRightIndex: nat, levelIndex: nat)

  /** guardMap, as filled from GUARD_CHARACTER by the source's loop. */
  const GuardMap: map<string, Wrap> := map[
    "{" := Nq(1, 0), "}" := Nq(2, 0), "(" := Nq(3, 1), ")" := Nq(4, 1),
    "Array<" := Nq(5, 2), ">" := Nq(6, 2), "[" := Nq(7, 3), "]" := Nq(8, 3),
    "\"" := Eq(9, 10, 4), "'" := Eq(11, 12, 5)]

  /** The counters, the segment being built and the segments emitted so far:
      the variables the handlers of the source update through their closure. */
  datatype Ctx = Ctx(levels: seq<int>, path: string, ans: seq<string>)

  /** What a handler receives: the text read, the counter it concerns (-1
      where the source passes NaN) and the closure's variables. */
  datatype Payload = Payload(ch: string, index: int, ctx: Ctx)

  const InitialCtx: Ctx := Ctx([0, 0, 0, 0, 0, 0], "", [])

  predicate AllZero(levels: seq<int>) {
    forall k | 0 <= k < |levels| :: levels[k] == 0
  }

  predicate AllNonNegative(levels: seq<int>) {
    forall k | 0 <= k < |levels| :: levels[k] >= 0
  }

  // ---------------------------------------------------------------------
  // The handlers of the transition table.

  function HandleNormalBreak(p: Payload): (State, Ctx) {
    var c := p.ctx;
    if AllZero(c.levels) then (Split, Ctx(c.levels, "", c.ans + [c.path]))
    else if AllNonNegative(c.levels) then (Normal, Ctx(c.levels, c.path + p.ch, c.ans))
    else (Err, c)
  }

  function HandleNormalLeft(p: Payload): (State, Ctx)
    requires 0 <= p.index < |p.ctx.levels|
  {
    var c := p.ctx;
    if AllNonNegative(c.levels) then
      (Normal, Ctx(c.levels[p.index := c.levels[p.index] + 1], c.path + p.ch, c.ans))
    else (Err, c)
  }

  function HandleNormalRight(p: Payload): (State, Ctx)
    requires 0 <= p.index < |p.ctx.levels|
  {
    var c := p.ctx;
    if AllNonNegative(c.levels) && c.levels[p.index] > 0 then
      (Normal, Ctx(c.levels[p.index := c.levels[p.index] - 1], c.path + p.ch, c.ans))
    else (Err, c)
  }

  function HandleNormalOther(p: Payload): (State, Ctx) {
    (Normal, Ctx(p.ctx.levels, p.ctx.path + p.ch, p.ctx.ans))
  }

  function HandleSplitBreak(p: Payload): (State, Ctx) {
    (Err, p.ctx)
  }

  function HandleSplitLeft(p: Payload): (State, Ctx)
    requires 0 <= p.index < |p.ctx.levels|
  {
    var c := p.ctx;
    (Normal, Ctx(c.levels[p.index := c.levels[p.index] + 1], c.path + p.ch, c.ans))
  }

  function HandleSplitRight(p: Payload): (State, Ctx) {
    (Err, p.ctx)
  }

  function HandleSplitOther(p: Payload): (State, Ctx) {
    (Normal, Ctx(p.ctx.levels, p.ctx.path + p.ch, p.ctx.ans))
  }

  function HandleError(p: Payload): (State, Ctx) {
    (Err, p.ctx)
  }

  /** The handler the table holds for a state and an input. */
  function Handler(s: State, input: nat): Payload --> (State, Ctx) {
    match s
    case Normal =>
      if input == BreakInput then HandleNormalBreak
      else if input == OtherInput then HandleNormalOther
      else if input % 2 != 0 then HandleNormalLeft
      else HandleNormalRight
    case Split =>
      if input == BreakInput then HandleSplitBreak
      else if input == OtherInput then HandleSplitOther
      else if input % 2 != 0 then HandleSplitLeft
      else HandleSplitRight
    case Err => HandleError
  }

  function Row(s: State): map<nat, Payload --> (State, Ctx)> {
    map i: nat | i < InputCount :: Handler(s, i)
  }

  /** The transition table handed to the automaton's constructor. */
  function Table(): map<State, map<nat, Payload --> (State, Ctx)>> {
    map[Normal := Row(Normal), Split := Row(Split), Err := Row(Err)]
  }

  lemma RowShape(s: State)
    ensures forall i: nat :: i in Row(s) <==> i < InputCount
    ensures forall i: nat | i < InputCount :: Row(s)[i] == Handler(s, i)
  {
  }

  lemma TableRows()
    ensures forall s: State :: s in Table() && Table()[s] == Row(s)
  {
    forall s: State
      ensures s in Table() && Table()[s] == Row(s)
    {
      match s
      case Normal =>
      case Split =>
      case Err =>
    }
  }

  /** The table passes the constructor's validation, so building the
      automaton never throws; every state has a row, and every row holds the
      handler of every input. */
  lemma TableIsLegal()
    ensures Automaton.LegalTable(Split, Table())
    ensures forall s: State :: s in Table()
    ensures forall s: State, i: nat :: i in Table()[s] <==> i < InputCount
    ensures forall s: State, i: nat | i < InputCount :: Table()[s][i] == Handler(s, i)
  {
    TableRows();
    forall s: State
      ensures Table()[s].Keys == Table()[Split].Keys
    {
      RowShape(s);
      RowShape(Split);
    }
    forall s: State ensures forall i: nat | i < InputCount :: Table()[s][i] == Handler(s, i) {
      RowShape(s);
    }
    forall s: State ensures forall i: nat :: i in Table()[s] <==> i < InputCount {
      RowShape(s);
    }
  }

  /** One entry of the table: every state's row, like the row of SPLIT
      that gives the automaton its inputs, holds each input's handler. */
  lemma TableEntry(s: State, i: nat)
    requires i < InputCount
    ensures s in Table() && Split in Table() && i in Table()[s] && i in Table()[Split]
    ensures Table()[s][i] == Handler(s, i)
  {
    TableRows();
    RowShape(s);
    RowShape(Split);
  }

  /** What a handler needs of its payload: a guard input must come with the
      index of an existing counter. */
  predicate Feedable(input: nat, index: int, c: Ctx) {
    input < InputCount && (BreakInput < input < OtherInput ==> 0 <= index < |c.levels|)
  }

  /** Running the handler of the table on a payload. */
  function Fire(s: State, input: nat, ch: string, index: int, c: Ctx): (State, Ctx)
    requires Feedable(input, index, c)
  {
    Handler(s, input)(Payload(ch, index, c))
  }

  // ---------------------------------------------------------------------
  // `next`: from the text read to an input of the automaton.

  /** The input and counter for `ch`, as `next` chooses them: a break
      character first; then a guard, except that a quote inside an open
      quote of the other kind is ordinary content; then anything else. */
  function Route(ch: string, levels: seq<int>, breakPoints: seq<char>): (r: (nat, int))
    requires |levels| == GuardCount
    ensures r.0 < InputCount
    ensures BreakInput < r.0 < OtherInput ==> 0 <= r.1 < GuardCount
  {
    if |ch| == 1 && ch[0] in breakPoints then (BreakInput, -1)
    else if ch in GuardMap then
      if (ch == "\"" && levels[SingleQuoteLevel] > 0) || (ch == "'" && levels[DoubleQuoteLevel] > 0) then
        (OtherInput, -1)
      else
        match GuardMap[ch]
        case Nq(input, level) => (input, level)
        case Eq(left, right, level) => (if levels[level] % 2 == 0 then left else right, level)
    else (OtherInput, -1)
  }

  /** `next(ch)` */
  function Next(s: State, ch: string, c: Ctx, breakPoints: seq<char>): (State, Ctx)
    requires |c.levels| == GuardCount
  {
    var (input, index) := Route(ch, c.levels, breakPoints);
    Fire(s, input, ch, index, c)
  }

  /** `nextOther(ch)` */
  function NextOther(s: State, ch: string, c: Ctx): (State, Ctx) {
    Fire(s, OtherInput, ch, -1, c)
  }

  predicate StartsArray(str: string, i: nat) {
    i + 6 <= |str| && str[i..i + 6] == "Array<"
  }

  /** The character loop, from position `i` in state `s`. A backslash at a
      position `>= escapeBound` is an unterminated escape. */
  function Scan(str: string, breakPoints: seq<char>, escapeBound: int, i: nat, s: State, c: Ctx): (r: (State, Ctx))
    requires i <= |str| && escapeBound <= |str| - 1 && |c.levels| == GuardCount
    ensures |r.1.levels| == GuardCount
    decreases |str| - i
  {
    if i == |str| || s == Err then (s, c)
    else if str[i] in Invisible then
      if c.levels[SingleQuoteLevel] == 0 && c.levels[DoubleQuoteLevel] == 0 then
        Scan(str, breakPoints, escapeBound, i + 1, s, c)
      else
        var (s1, c1) := Next(s, [str[i]], c, breakPoints);
        Scan(str, breakPoints, escapeBound, i + 1, s1, c1)
    else if str[i] == '\\' then
      if i >= escapeBound then (Err, c)
      else
        var (s1, c1) := NextOther(s, "\\", c);
        var (s2, c2) := NextOther(s1, [str[i + 1]], c1);
        Scan(str, breakPoints, escapeBound, i + 2, s2, c2)
    else if StartsArray(str, i) then
      var (s1, c1) := Next(s, "Array<", c, breakPoints);
      Scan(str, breakPoints, escapeBound, i + 6, s1, c1)
    else
      var (s1, c1) := Next(s, [str[i]], c, breakPoints);
      Scan(str, breakPoints, escapeBound, i + 1, s1, c1)
  }

  /** The check after the loop: the automaton in ERR or an open guard throws. */
  function Finish(r: (State, Ctx)): Result<seq<string>> {
    if r.0 == Err || !AllZero(r.1.levels) then TypeError else Ok(r.1.ans)
  }

  /** The scan of `raw` followed by the first break character, which closes
      the last segment. */
  function Run(raw: string, breakPoints: seq<char>, escapeBound: int): Result<seq<string>>
    requires |breakPoints| > 0 && escapeBound <= |raw|
  {
    Finish(Scan(raw + [breakPoints[0]], breakPoints, escapeBound, 0, Split, InitialCtx))
  }

  /** splitAstriction as src/index.ts:463 writes it: the end-of-input test
      for a backslash looks at the string with the break character already
      appended, so a backslash that ends `raw` escapes that break character. */
  function SplitAstrictionAsWritten(raw: string, breakPoints: seq<char>): (r: Result<seq<string>>)
    ensures r.Ok? ==> forall k | 0 <= k < |r.value| :: r.value[k] != "" && |r.value[k]| <= |raw|
  {
    if |breakPoints| == 0 then TypeError
    else
      ScanFacts(raw + [breakPoints[0]], breakPoints, |raw|, 0, Split, InitialCtx);
      Run(raw, breakPoints, |raw|)
  }

  /** splitAstriction with the end-of-input test on `raw` itself: a backslash
      that ends the input throws. Every segment it returns is non-empty and
      none is longer than the input; unless the first break character is
      whitespace (which the loop skips, so it never closes the last
      segment), there is at least one segment. */
  function SplitAstriction(raw: string, breakPoints: seq<char>): (r: Result<seq<string>>)
    ensures r.Ok? && |breakPoints| > 0 && breakPoints[0] !in Invisible ==> |r.value| > 0
    ensures r.Ok? ==> forall k | 0 <= k < |r.value| :: r.value[k] != "" && |r.value[k]| <= |raw|
  {
    if |breakPoints| == 0 then TypeError
    else
      ScanFacts(raw + [breakPoints[0]], breakPoints, |raw| - 1, 0, Split, InitialCtx);
      if breakPoints[0] in Invisible then Run(raw, breakPoints, |raw| - 1)
      else
        ScanEndsSplit(raw + [breakPoints[0]], breakPoints, |raw| - 1, 0, Split, InitialCtx);
        Run(raw, breakPoints, |raw| - 1)
  }

  // ---------------------------------------------------------------------
  // The invariant of the loop.

  /** What holds of the automaton's state and the closure's variables
      between two characters: no counter is negative, a quote counter is 0
      or 1 and at most one quote kind is open, SPLIT means an empty buffer
      with every guard closed, NORMAL a non-empty buffer, and no emitted
      segment is empty. */
  predicate Inv(s: State, c: Ctx) {
    && |c.levels| == GuardCount
    && AllNonNegative(c.levels)
    && c.levels[DoubleQuoteLevel] <= 1 && c.levels[SingleQuoteLevel] <= 1
    && (c.levels[DoubleQuoteLevel] == 0 || c.levels[SingleQuoteLevel] == 0)
    && (s == Split ==> c.path == "" && AllZero(c.levels))
    && (s == Normal ==> c.path != "")
    && forall k | 0 <= k < |c.ans| :: c.ans[k] != ""
  }

  /** One input keeps the invariant, grows the buffer by at most what was
      read, and emits a segment only from NORMAL with every counter at zero:
      the buffered segment, after which the buffer is empty. */
  lemma FireKeepsInv(s: State, input: nat, ch: string, index: int, c: Ctx)
    requires Inv(s, c) && ch != "" && Feedable(input, index, c)
    requires input == BreakInput || input == OtherInput || (ch in GuardMap && index == GuardMap[ch].levelIndex)
    requires ch == "\"" && input != BreakInput && input != OtherInput ==>
      c.levels[SingleQuoteLevel] == 0 && input == (if c.levels[DoubleQuoteLevel] % 2 == 0 then 9 else 10)
    requires ch == "'" && input != BreakInput && input != OtherInput ==>
      c.levels[DoubleQuoteLevel] == 0 && input == (if c.levels[SingleQuoteLevel] % 2 == 0 then 11 else 12)
    requires ch != "\"" && ch != "'" && input != BreakInput && input != OtherInput ==> index < DoubleQuoteLevel
    ensures var (s', c') := Fire(s, input, ch, index, c);
      && Inv(s', c')
      && (c'.ans == c.ans ==> |c'.path| <= |c.path| + |ch|)
      && (c'.ans != c.ans ==>
            s == Normal && input == BreakInput && AllZero(c.levels)
            && s' == Split && c'.ans == c.ans + [c.path] && c'.path == "")
  {
  }

  lemma NextKeepsInv(s: State, ch: string, c: Ctx, breakPoints: seq<char>)
    requires Inv(s, c) && ch != ""
    ensures var (s', c') := Next(s, ch, c, breakPoints);
      && Inv(s', c')
      && (c'.ans == c.ans ==> |c'.path| <= |c.path| + |ch|)
      && (c'.ans != c.ans ==> c'.ans == c.ans + [c.path] && c'.path == "")
  {
    var (input, index) := Route(ch, c.levels, breakPoints);
    FireKeepsInv(s, input, ch, index, c);
  }

  /** From `c` on, earlier segments are kept and every new one is no
      longer than the buffer of `c` plus `budget`. */
  predicate Emits(c: Ctx, r: Ctx, budget: int) {
    c.ans <= r.ans && forall k | |c.ans| <= k < |r.ans| :: |r.ans[k]| <= |c.path| + budget
  }

  /** What one step of `n` characters does to the segments and the buffer. */
  predicate Grows(c: Ctx, c1: Ctx, n: nat) {
    && (c1.ans == c.ans ==> |c1.path| <= |c.path| + n)
    && (c1.ans != c.ans ==> c1.ans == c.ans + [c.path] && c1.path == "")
  }

  lemma EmitsStep(c: Ctx, c1: Ctx, r: Ctx, n: nat, budget: int)
    requires Grows(c, c1, n) && Emits(c1, r, budget) && budget + n >= 0
    ensures Emits(c, r, budget + n)
  {
    if c1.ans != c.ans {
      assert r.ans[|c.ans|] == c1.ans[|c.ans|] == c.path;
    }
  }

  /** Over the whole scan: the invariant holds at the end, earlier segments
      are kept, and every new segment is no longer than the buffer plus what
      is left to read, minus the break character that closes it. */
  lemma {:induction false} ScanFacts(str: string, breakPoints: seq<char>, escapeBound: int, i: nat, s: State, c: Ctx)
    requires i <= |str| && escapeBound <= |str| - 1 && Inv(s, c)
    ensures var r := Scan(str, breakPoints, escapeBound, i, s, c);
      Inv(r.0, r.1) && Emits(c, r.1, |str| - 1 - i)
    decreases |str| - i, 3
  {
    if i == |str| || s == Err {
    } else if str[i] in Invisible && c.levels[SingleQuoteLevel] == 0 && c.levels[DoubleQuoteLevel] == 0 {
      ScanSkips(str, breakPoints, escapeBound, i, s, c);
      ScanFactsAfter(str, breakPoints, escapeBound, i, i + 1, s, c, s, c);
    } else if str[i] == '\\' {
      if i < escapeBound {
        ScanFactsEscape(str, breakPoints, escapeBound, i, s, c);
      } else {
        ScanUnterminated(str, breakPoints, escapeBound, i, s, c);
      }
    } else {
      var arr := str[i] !in Invisible && StartsArray(str, i);
      var ch: string, width: nat := if arr then "Array<" else [str[i]], if arr then 6 else 1;
      ScanFactsRead(str, breakPoints, escapeBound, i, s, c, ch, width);
    }
  }

  lemma {:induction false} ScanFactsEscape(str: string, breakPoints: seq<char>, escapeBound: int, i: nat, s: State, c: Ctx)
    requires i < |str| && escapeBound <= |str| - 1 && Inv(s, c) && s != Err
    requires str[i] == '\\' && i < escapeBound
    ensures var r := Scan(str, breakPoints, escapeBound, i, s, c);
      Inv(r.0, r.1) && Emits(c, r.1, |str| - 1 - i)
    decreases |str| - i, 2
  {
    ScanEscapes(str, breakPoints, escapeBound, i, s, c);
    FireKeepsInv(s, OtherInput, "\\", -1, c);
    ghost var n1 := NextOther(s, "\\", c);
    FireKeepsInv(n1.0, OtherInput, [str[i + 1]], -1, n1.1);
    ghost var n2 := NextOther(n1.0, [str[i + 1]], n1.1);
    assert Scan(str, breakPoints, escapeBound, i, s, c) == Scan(str, breakPoints, escapeBound, i + 2, n2.0, n2.1);
    assert Grows(c, n2.1, 2) by {
      assert n1.1.ans == c.ans && n2.1.ans == n1.1.ans;
    }
    ScanFactsAfter(str, breakPoints, escapeBound, i, i + 2, s, c, n2.0, n2.1);
  }

  lemma {:induction false} ScanFactsRead(str: string, breakPoints: seq<char>, escapeBound: int, i: nat, s: State, c: Ctx,
                                         ch: string, width: nat)
    requires i < |str| && escapeBound <= |str| - 1 && Inv(s, c) && s != Err
    requires
      || (str[i] in Invisible && !(c.levels[SingleQuoteLevel] == 0 && c.levels[DoubleQuoteLevel] == 0)
          && ch == [str[i]] && width == 1)
      || (str[i] !in Invisible && str[i] != '\\' && StartsArray(str, i) && ch == "Array<" && width == 6)
      || (str[i] !in Invisible && str[i] != '\\' && !StartsArray(str, i) && ch == [str[i]] && width == 1)
    ensures var r := Scan(str, breakPoints, escapeBound, i, s, c);
      Inv(r.0, r.1) && Emits(c, r.1, |str| - 1 - i)
    decreases |str| - i, 2
  {
    ghost var n := Next(s, ch, c, breakPoints);
    NextKeepsInv(s, ch, c, breakPoints);
    assert Inv(n.0, n.1) && Grows(c, n.1, width);
    ScanReads(str, breakPoints, escapeBound, i, s, c, ch, width);
    assert Scan(str, breakPoints, escapeBound, i, s, c) == Scan(str, breakPoints, escapeBound, i + width, n.0, n.1);
    ScanFactsAfter(str, breakPoints, escapeBound, i, i + width, s, c, n.0, n.1);
  }

  /** The scan from `i` continues as the scan from `j` after a step of
      `j - i` characters. */
  lemma {:induction false} ScanFactsAfter(str: string, breakPoints: seq<char>, escapeBound: int,
                                          i: nat, j: nat, s: State, c: Ctx, s1: State, c1: Ctx)
    requires i < j <= |str| && escapeBound <= |str| - 1 && Inv(s, c) && Inv(s1, c1) && Grows(c, c1, j - i)
    requires Scan(str, breakPoints, escapeBound, i, s, c) == Scan(str, breakPoints, escapeBound, j, s1, c1)
    ensures var r := Scan(str, breakPoints, escapeBound, i, s, c);
      Inv(r.0, r.1) && Emits(c, r.1, |str| - 1 - i)
    decreases |str| - j, 4
  {
    ScanFacts(str, breakPoints, escapeBound, j, s1, c1);
    EmitsStep(c, c1, Scan(str, breakPoints, escapeBound, j, s1, c1).1, j - i, |str| - 1 - j);
  }

  /** When the text ends with a break character that is still to be read,
      a scan that neither fails nor leaves a guard open ends in SPLIT, that
      is, with an empty buffer, and has emitted at least one segment. */
  lemma {:induction false} ScanEndsSplit(str: string, breakPoints: seq<char>, bound: int, i: nat, s: State, c: Ctx)
    requires i < |str| && bound <= |str| - 2 && Inv(s, c)
    requires str[|str| - 1] in breakPoints && str[|str| - 1] !in Invisible
    ensures var r := Scan(str, breakPoints, bound, i, s, c);
      r.0 != Err && AllZero(r.1.levels) ==> r.0 == Split && |r.1.ans| > |c.ans|
    decreases |str| - i, 1
  {
    if s == Err {
    } else if str[i] in Invisible {
      EndsSplitInvisible(str, breakPoints, bound, i, s, c);
    } else if str[i] == '\\' {
      if i < bound {
        EndsSplitEscape(str, breakPoints, bound, i, s, c);
      }
    } else if StartsArray(str, i) {
      EndsSplitArray(str, breakPoints, bound, i, s, c);
    } else {
      EndsSplitRead(str, breakPoints, bound, i, s, c);
    }
  }

  lemma {:induction false} EndsSplitInvisible(str: string, breakPoints: seq<char>, bound: int, i: nat, s: State, c: Ctx)
    requires i < |str| && bound <= |str| - 2 && Inv(s, c)
    requires str[|str| - 1] in breakPoints && str[|str| - 1] !in Invisible
    requires s != Err && str[i] in Invisible
    ensures var r := Scan(str, breakPoints, bound, i, s, c);
      r.0 != Err && AllZero(r.1.levels) ==> r.0 == Split && |r.1.ans| > |c.ans|
    decreases |str| - i, 0
  {
    assert i + 1 < |str|;
    if c.levels[SingleQuoteLevel] == 0 && c.levels[DoubleQuoteLevel] == 0 {
      ScanEndsSplit(str, breakPoints, bound, i + 1, s, c);
    } else {
      NextKeepsInv(s, [str[i]], c, breakPoints);
      ghost var n := Next(s, [str[i]], c, breakPoints);
      ScanEndsSplit(str, breakPoints, bound, i + 1, n.0, n.1);
    }
  }

  lemma {:induction false} EndsSplitEscape(str: string, breakPoints: seq<char>, bound: int, i: nat, s: State, c: Ctx)
    requires i < |str| && bound <= |str| - 2 && Inv(s, c)
    requires str[|str| - 1] in breakPoints && str[|str| - 1] !in Invisible
    requires s != Err && str[i] == '\\' && i < bound
    ensures var r := Scan(str, breakPoints, bound, i, s, c);
      r.0 != Err && AllZero(r.1.levels) ==> r.0 == Split && |r.1.ans| > |c.ans|
    decreases |str| - i, 0
  {
    ghost var n1 := NextOther(s, "\\", c);
    ghost var n2 := NextOther(n1.0, [str[i + 1]], n1.1);
    FireKeepsInv(s, OtherInput, "\\", -1, c);
    FireKeepsInv(n1.0, OtherInput, [str[i + 1]], -1, n1.1);
    assert n1.1.ans == c.ans && n2.1.ans == c.ans;
    ScanEndsSplit(str, breakPoints, bound, i + 2, n2.0, n2.1);
  }

  lemma {:induction false} EndsSplitArray(str: string, breakPoints: seq<char>, bound: int, i: nat, s: State, c: Ctx)
    requires i < |str| && bound <= |str| - 2 && Inv(s, c)
    requires str[|str| - 1] in breakPoints && str[|str| - 1] !in Invisible
    requires s != Err && str[i] !in Invisible && str[i] != '\\' && StartsArray(str, i)
    ensures var r := Scan(str, breakPoints, bound, i, s, c);
      r.0 != Err && AllZero(r.1.levels) ==> r.0 == Split && |r.1.ans| > |c.ans|
    decreases |str| - i, 0
  {
    NextKeepsInv(s, "Array<", c, breakPoints);
    ghost var n := Next(s, "Array<", c, breakPoints);
    if i + 6 < |str| {
      ScanEndsSplit(str, breakPoints, bound, i + 6, n.0, n.1);
    } else if n.0 != Err {
      assert n.1.levels[2] > 0;
    }
  }

  lemma {:induction false} EndsSplitRead(str: string, breakPoints: seq<char>, bound: int, i: nat, s: State, c: Ctx)
    requires i < |str| && bound <= |str| - 2 && Inv(s, c)
    requires str[|str| - 1] in breakPoints && str[|str| - 1] !in Invisible
    requires s != Err && str[i] !in Invisible && str[i] != '\\' && !StartsArray(str, i)
    ensures var r := Scan(str, breakPoints, bound, i, s, c);
      r.0 != Err && AllZero(r.1.levels) ==> r.0 == Split && |r.1.ans| > |c.ans|
    decreases |str| - i, 0
  {
    NextKeepsInv(s, [str[i]], c, breakPoints);
    ghost var n := Next(s, [str[i]], c, breakPoints);
    if i + 1 < |str| {
      ScanEndsSplit(str, breakPoints, bound, i + 1, n.0, n.1);
    }
  }

  // ---------------------------------------------------------------------
  // The imperative tokenizer.

  /** The automaton `splitAstriction` builds, over the table above. */
  ghost predicate Ready(dfa: Automaton.Dfa<State, nat, Payload, Ctx>)
    reads dfa
  {
    dfa.Valid() && dfa.transfer == Table() && dfa.finiteInputSet == Table()[Split].Keys
  }

  /** `nextKeyword`: one input with its payload, through the automaton. */
  method FeedKeyword(dfa: Automaton.Dfa<State, nat, Payload, Ctx>, ch: string, input: nat, index: int, c: Ctx)
    returns (c': Ctx)
    requires Ready(dfa) && Feedable(input, index, c)
    modifies dfa
    ensures Ready(dfa)
    ensures (dfa.state, c') == Fire(old(dfa.state), input, ch, index, c)
  {
    TableEntry(dfa.state, input);
    var r := dfa.Next(input, Payload(ch, index, c));
    c' := r.value;
  }

  /** `next`: route the text read to its input, then feed it. */
  method FeedNext(dfa: Automaton.Dfa<State, nat, Payload, Ctx>, ch: string, c: Ctx, breakPoints: seq<char>)
    returns (c': Ctx)
    requires Ready(dfa) && |c.levels| == GuardCount
    modifies dfa
    ensures Ready(dfa)
    ensures (dfa.state, c') == Next(old(dfa.state), ch, c, breakPoints)
  {
    var (input, index) := Route(ch, c.levels, breakPoints);
    c' := FeedKeyword(dfa, ch, input, index, c);
  }

  // One step of `Scan`, branch by branch, for the loop below.

  lemma ScanSkips(str: string, breakPoints: seq<char>, bound: int, i: nat, s: State, c: Ctx)
    requires i < |str| && bound <= |str| - 1 && |c.levels| == GuardCount && s != Err
    requires str[i] in Invisible && c.levels[SingleQuoteLevel] == 0 && c.levels[DoubleQuoteLevel] == 0
    ensures Scan(str, breakPoints, bound, i, s, c) == Scan(str, breakPoints, bound, i + 1, s, c)
  {
  }

  lemma ScanReads(str: string, breakPoints: seq<char>, bound: int, i: nat, s: State, c: Ctx, ch: string, width: nat)
    requires i < |str| && bound <= |str| - 1 && |c.levels| == GuardCount && s != Err
    requires
      || (str[i] in Invisible && !(c.levels[SingleQuoteLevel] == 0 && c.levels[DoubleQuoteLevel] == 0)
          && ch == [str[i]] && width == 1)
      || (str[i] !in Invisible && str[i] != '\\' && StartsArray(str, i) && ch == "Array<" && width == 6)
      || (str[i] !in Invisible && str[i] != '\\' && !StartsArray(str, i) && ch == [str[i]] && width == 1)
    ensures i + width <= |str|
    ensures var (s1, c1) := Next(s, ch, c, breakPoints);
      Scan(str, breakPoints, bound, i, s, c) == Scan(str, breakPoints, bound, i + width, s1, c1)
  {
  }

  lemma ScanEscapes(str: string, breakPoints: seq<char>, bound: int, i: nat, s: State, c: Ctx)
    requires i < |str| && bound <= |str| - 1 && |c.levels| == GuardCount && s != Err
    requires str[i] == '\\' && i < bound
    ensures i + 2 <= |str|
    ensures var (s1, c1) := NextOther(s, "\\", c);
      var (s2, c2) := NextOther(s1, [str[i + 1]], c1);
      Scan(str, breakPoints, bound, i, s, c) == Scan(str, breakPoints, bound, i + 2, s2, c2)
  {
    assert str[i] !in Invisible;
  }

  lemma ScanUnterminated(str: string, breakPoints: seq<char>, bound: int, i: nat, s: State, c: Ctx)
    requires i < |str| && bound <= |str| - 1 && |c.levels| == GuardCount && s != Err
    requires str[i] == '\\' && i >= bound
    ensures Scan(str, breakPoints, bound, i, s, c) == (Err, c)
  {
    assert str[i] !in Invisible;
  }

  /** The loop body on a backslash: force ERR at the end of the input,
      otherwise feed the backslash and the character after it. */
  method EscapeStep(dfa: Automaton.Dfa<State, nat, Payload, Ctx>, str: string, breakPoints: seq<char>, bound: int,
                    index: nat, c: Ctx)
    returns (index': nat, c': Ctx, stopped: bool)
    requires Ready(dfa) && dfa.state != Err
    requires index < |str| && bound <= |str| - 1 && |c.levels| == GuardCount && str[index] == '\\'
    modifies dfa
    ensures Ready(dfa) && |c'.levels| == GuardCount
    ensures stopped ==> dfa.state == Err && Scan(str, breakPoints, bound, index, old(dfa.state), c) == (Err, c')
    ensures !stopped ==>
      && index < index' <= |str|
      && Scan(str, breakPoints, bound, index', dfa.state, c') == Scan(str, breakPoints, bound, index, old(dfa.state), c)
  {
    if index >= bound {
      ScanUnterminated(str, breakPoints, bound, index, dfa.state, c);
      TableRows();
      var forced := dfa.Force(Err);
      return index, c, true;
    }
    ScanEscapes(str, breakPoints, bound, index, dfa.state, c);
    var c1 := FeedKeyword(dfa, "\\", OtherInput, -1, c);
    c' := FeedKeyword(dfa, [str[index + 1]], OtherInput, -1, c1);
    index' := index + 2;
    stopped := false;
  }

  /** One pass of the loop body from a state other than ERR: either the
      scan goes on from `index'`, or an unterminated escape forced ERR. */
  method LoopStep(dfa: Automaton.Dfa<State, nat, Payload, Ctx>, str: string, breakPoints: seq<char>, bound: int,
                  index: nat, c: Ctx)
    returns (index': nat, c': Ctx, stopped: bool)
    requires Ready(dfa) && dfa.state != Err
    requires index < |str| && bound <= |str| - 1 && |c.levels| == GuardCount
    modifies dfa
    ensures Ready(dfa) && |c'.levels| == GuardCount
    ensures stopped ==> dfa.state == Err && Scan(str, breakPoints, bound, index, old(dfa.state), c) == (Err, c')
    ensures !stopped ==>
      && index < index' <= |str|
      && Scan(str, breakPoints, bound, index', dfa.state, c') == Scan(str, breakPoints, bound, index, old(dfa.state), c)
  {
    stopped := false;
    c' := c;
    var ch := str[index];
    if ch in Invisible {
      if c.levels[SingleQuoteLevel] == 0 && c.levels[DoubleQuoteLevel] == 0 {
        ScanSkips(str, breakPoints, bound, index, dfa.state, c);
        return index + 1, c, false;
      }
      index', c' := ReadStep(dfa, str, breakPoints, bound, index, c, [ch], 1);
    } else if ch == '\\' {
      index', c', stopped := EscapeStep(dfa, str, breakPoints, bound, index, c);
    } else if StartsArray(str, index) {
      index', c' := ReadStep(dfa, str, breakPoints, bound, index, c, "Array<", 6);
    } else {
      index', c' := ReadStep(dfa, str, breakPoints, bound, index, c, [ch], 1);
    }
  }

  /** The loop body on a character or `Array<` that goes to `next`. */
  method ReadStep(dfa: Automaton.Dfa<State, nat, Payload, Ctx>, str: string, breakPoints: seq<char>, bound: int,
                  index: nat, c: Ctx, ch: string, width: nat)
    returns (index': nat, c': Ctx)
    requires Ready(dfa) && dfa.state != Err
    requires index < |str| && bound <= |str| - 1 && |c.levels| == GuardCount
    requires
      || (str[index] in Invisible && !(c.levels[SingleQuoteLevel] == 0 && c.levels[DoubleQuoteLevel] == 0)
          && ch == [str[index]] && width == 1)
      || (str[index] !in Invisible && str[index] != '\\' && StartsArray(str, index) && ch == "Array<" && width == 6)
      || (str[index] !in Invisible && str[index] != '\\' && !StartsArray(str, index) && ch == [str[index]] && width == 1)
    modifies dfa
    ensures Ready(dfa) && |c'.levels| == GuardCount
    ensures index < index' <= |str|
    ensures Scan(str, breakPoints, bound, index', dfa.state, c') == Scan(str, breakPoints, bound, index, old(dfa.state), c)
  {
    ghost var next := Next(dfa.state, ch, c, breakPoints);
    ScanReads(str, breakPoints, bound, index, dfa.state, c, ch, width);
    assert Scan(str, breakPoints, bound, index, dfa.state, c) == Scan(str, breakPoints, bound, index + width, next.0, next.1);
    c' := FeedNext(dfa, ch, c, breakPoints);
    assert dfa.state == next.0 && c' == next.1;
    index' := index + width;
  }

  /** splitAstriction: the character loop over a fresh automaton, returning
      exactly what `SplitAstriction` specifies. */
  method SplitAstrictionMethod(rawAstriction: string, breakPoints: seq<char>) returns (r: Result<seq<string>>)
    ensures r == SplitAstriction(rawAstriction, breakPoints)
  {
    if |breakPoints| == 0 {
      return TypeError;
    }
    TableIsLegal();
    var created := Automaton.Create(Split, Table());
    var dfa := created.value;
    var c := InitialCtx;
    var str := rawAstriction + [breakPoints[0]];
    var bound := |rawAstriction| - 1;
    ghost var goal := Scan(str, breakPoints, bound, 0, Split, InitialCtx);
    var index := 0;
    while index < |str|
      invariant 0 <= index <= |str| && |c.levels| == GuardCount
      invariant Ready(dfa)
      invariant Scan(str, breakPoints, bound, index, dfa.state, c) == goal
      decreases |str| - index
    {
      if dfa.state == Err {
        break;
      }
      var stopped;
      index, c, stopped := LoopStep(dfa, str, breakPoints, bound, index, c);
      if stopped {
        break;
      }
    }
    assert (dfa.state, c) == goal;
    if dfa.state == Err || !AllZero(c.levels) {
      return TypeError;
    }
    return Ok(c.ans);
  }
}
