/** What the tokenizer's segments are made of: joined again with the break
    character they are exactly the input with its whitespace outside quotes
    removed. Also the examples the tokenizer's behaviour is documented by,
    and the trailing-backslash discrepancy of the code as written. */
module TokenizerFacts {
  import opened Wrappers
  import opened Chars
  import opened Tokenizer

  /** The text the tokenizer keeps of `s` from position `i`, given whether a
      double (`dq`) and a single (`sq`) quote is open: whitespace outside
      quotes is dropped, a backslash keeps the next character with it
      whatever it is, and a quote toggles its flag unless the other quote
      kind is open. */
  function Kept(s: string, i: nat, dq: int, sq: int): string
    requires i <= |s|
    decreases |s| - i
  {
    if i == |s| then ""
    else
      var (piece, j, dq', sq') := KeptStep(s, i, dq, sq);
      piece + Kept(s, j, dq', sq')
  }

  /** What `Kept` keeps of the character at `i`, where it goes on reading,
      and the quote flags it goes on with. */
  function KeptStep(s: string, i: nat, dq: int, sq: int): (r: (string, nat, int, int))
    requires i < |s|
    ensures i < r.1 <= |s|
  {
    if s[i] in Invisible then (if dq == 0 && sq == 0 then "" else [s[i]], i + 1, dq, sq)
    else if s[i] == '\\' then
      if i + 1 < |s| then ([s[i], s[i + 1]], i + 2, dq, sq) else ("\\", i + 1, dq, sq)
    else if s[i] == '"' && sq == 0 then ("\"", i + 1, 1 - dq, sq)
    else if s[i] == '\'' && dq == 0 then ("'", i + 1, dq, 1 - sq)
    else ([s[i]], i + 1, dq, sq)
  }

  /** The segments with `sep` between each two of them. */
  function Join(segs: seq<string>, sep: char): string {
    if |segs| == 0 then ""
    else if |segs| == 1 then segs[0]
    else Join(segs[..|segs| - 1], sep) + [sep] + segs[|segs| - 1]
  }

  /** The segments each followed by `sep`. */
  function Terminated(segs: seq<string>, sep: char): string {
    if |segs| == 0 then "" else Terminated(segs[..|segs| - 1], sep) + segs[|segs| - 1] + [sep]
  }

  lemma {:induction false} TerminatedIsJoin(segs: seq<string>, sep: char)
    requires |segs| > 0
    ensures Terminated(segs, sep) == Join(segs, sep) + [sep]
  {
    if |segs| > 1 {
      TerminatedIsJoin(segs[..|segs| - 1], sep);
    } else {
      assert segs[..0] == [];
    }
  }

  /** A character after the end of the text changes nothing before it. */
  lemma {:induction false} KeptSnoc(s: string, b: char, i: nat, dq: int, sq: int)
    requires i <= |s| && b !in Invisible
    ensures Kept(s + [b], i, dq, sq) == Kept(s, i, dq, sq) + [b]
    decreases |s| - i
  {
    var t := s + [b];
    if i == |s| {
      KeptLast(t, i, dq, sq);
    } else if s[i] == '\\' && i + 1 == |s| {
      StepSnoc(s, b, i, dq, sq);
      assert Kept(t, i + 2, dq, sq) == "";
      assert Kept(s, i + 1, dq, sq) == "";
    } else {
      StepSnoc(s, b, i, dq, sq);
      var (piece, j, dq', sq') := KeptStep(s, i, dq, sq);
      KeptSnoc(s, b, j, dq', sq');
      assert Kept(t, i, dq, sq) == piece + Kept(t, j, dq', sq');
      assert Kept(s, i, dq, sq) == piece + Kept(s, j, dq', sq');
    }
  }

  /** The last character, not whitespace, is kept whole. */
  lemma KeptLast(t: string, i: nat, dq: int, sq: int)
    requires i == |t| - 1 && t[i] !in Invisible
    ensures Kept(t, i, dq, sq) == [t[i]]
  {
    assert Kept(t, i + 1, KeptStep(t, i, dq, sq).2, KeptStep(t, i, dq, sq).3) == "";
  }

  /** One step on `s + [b]` is the step on `s`, except for a backslash
      that ends `s`, which now keeps `b` with it. */
  lemma StepSnoc(s: string, b: char, i: nat, dq: int, sq: int)
    requires i < |s|
    ensures s[i] == '\\' && i + 1 == |s| ==> KeptStep(s + [b], i, dq, sq) == ([s[i], b], i + 2, dq, sq)
    ensures s[i] == '\\' && i + 1 == |s| ==> KeptStep(s, i, dq, sq) == ("\\", i + 1, dq, sq)
    ensures !(s[i] == '\\' && i + 1 == |s|) ==> KeptStep(s + [b], i, dq, sq) == KeptStep(s, i, dq, sq)
  {
    var t := s + [b];
    assert t[i] == s[i];
    if i + 1 < |s| {
      assert t[i + 1] == s[i + 1];
    } else {
      assert t[i + 1] == b;
    }
  }

  /** How a quote flag moves when `ch` is read. */
  function Toggled(ch: string, quote: string, mine: int, other: int): int {
    if ch == quote && other == 0 then 1 - mine else mine
  }

  /** One character that is kept on its own (not dropped whitespace, not
      an escape). */
  lemma KeptOne(s: string, i: nat, dq: int, sq: int)
    requires i < |s| && s[i] != '\\' && (s[i] in Invisible ==> dq != 0 || sq != 0)
    ensures Kept(s, i, dq, sq) ==
      [s[i]] + Kept(s, i + 1, Toggled([s[i]], "\"", dq, sq), Toggled([s[i]], "'", sq, dq))
  {
  }

  /** A run of characters none of which is whitespace, a backslash or a
      quote is kept as it is. */
  lemma {:induction false} KeptRun(s: string, i: nat, j: nat, dq: int, sq: int)
    requires i <= j <= |s|
    requires forall k | i <= k < j :: Plain(s[k])
    ensures Kept(s, i, dq, sq) == s[i..j] + Kept(s, j, dq, sq)
    decreases j - i
  {
    if i == j {
      assert s[i..j] == [];
    } else {
      var rest := Kept(s, j, dq, sq);
      assert Plain(s[i]);
      KeptPlain(s, i, dq, sq);
      KeptRun(s, i + 1, j, dq, sq);
      assert [s[i]] + (s[i + 1..j] + rest) == ([s[i]] + s[i + 1..j]) + rest;
      assert [s[i]] + s[i + 1..j] == s[i..j];
    }
  }

  /** Neither whitespace, a backslash nor a quote. */
  predicate Plain(x: char) {
    x !in Invisible && x != '\\' && x != '"' && x != '\''
  }

  /** A character that is neither whitespace, a backslash nor a quote is
      kept and leaves the quote flags alone. */
  lemma KeptPlain(s: string, i: nat, dq: int, sq: int)
    requires i < |s| && Plain(s[i])
    ensures Kept(s, i, dq, sq) == [s[i]] + Kept(s, i + 1, dq, sq)
  {
  }

  lemma KeptArray(s: string, i: nat, dq: int, sq: int)
    requires StartsArray(s, i)
    ensures Kept(s, i, dq, sq) == "Array<" + Kept(s, i + 6, dq, sq)
  {
    forall k | i <= k < i + 6
      ensures Plain(s[k])
    {
      assert s[k] == s[i..i + 6][k - i];
    }
    KeptRun(s, i, i + 6, dq, sq);
  }

  /** A read that does not fail appends what was read to the segments
      (each closed by the break character) followed by the buffer, and moves
      the quote counters the way `Kept` moves its flags. */
  lemma NextKeeps(s: State, ch: string, c: Ctx, b: char)
    requires Inv(s, c) && ch != "" && b != '"' && b != '\''
    ensures var n := Next(s, ch, c, [b]);
      n.0 != Err ==>
        && Inv(n.0, n.1)
        && Terminated(n.1.ans, b) + n.1.path == Terminated(c.ans, b) + c.path + ch
        && n.1.levels[DoubleQuoteLevel] == Toggled(ch, "\"", c.levels[DoubleQuoteLevel], c.levels[SingleQuoteLevel])
        && n.1.levels[SingleQuoteLevel] == Toggled(ch, "'", c.levels[SingleQuoteLevel], c.levels[DoubleQuoteLevel])
  {
    NextKeepsInv(s, ch, c, [b]);
    NextToggles(s, ch, c, b);
    var n := Next(s, ch, c, [b]);
    if n.0 != Err {
      if n.1.ans != c.ans {
        NextEmits(s, ch, c, b);
        assert n.1.ans[..|n.1.ans| - 1] == c.ans;
        assert Terminated(n.1.ans, b) == Terminated(c.ans, b) + c.path + [b];
      } else {
        NextAppends(s, ch, c, b);
      }
    }
  }

  /** A read that emits nothing appends what was read to the buffer. */
  lemma NextAppends(s: State, ch: string, c: Ctx, b: char)
    requires Inv(s, c) && ch != ""
    requires Next(s, ch, c, [b]).0 != Err && Next(s, ch, c, [b]).1.ans == c.ans
    ensures Next(s, ch, c, [b]).1.path == c.path + ch
  {
  }

  /** The quote counters move as `Kept` moves its flags. */
  lemma NextToggles(s: State, ch: string, c: Ctx, b: char)
    requires Inv(s, c) && ch != "" && b != '"' && b != '\''
    ensures var n := Next(s, ch, c, [b]);
      n.0 != Err ==>
        && n.1.levels[DoubleQuoteLevel] == Toggled(ch, "\"", c.levels[DoubleQuoteLevel], c.levels[SingleQuoteLevel])
        && n.1.levels[SingleQuoteLevel] == Toggled(ch, "'", c.levels[SingleQuoteLevel], c.levels[DoubleQuoteLevel])
  {
  }

  /** A read that emits a segment reads the break character. */
  lemma NextEmits(s: State, ch: string, c: Ctx, b: char)
    requires Inv(s, c) && ch != "" && b != '"' && b != '\''
    requires Next(s, ch, c, [b]).0 != Err && Next(s, ch, c, [b]).1.ans != c.ans
    ensures ch == [b]
  {
  }

  /** From position `i` on: unless the scan fails, the segments and the
      buffer spell out what `Kept` keeps of the rest of the text. */
  ghost predicate KeepsFrom(str: string, b: char, bound: int, i: nat, s: State, c: Ctx)
    requires i <= |str| && bound <= |str| - 1 && |c.levels| == GuardCount
  {
    var r := Scan(str, [b], bound, i, s, c);
    r.0 != Err ==>
      Terminated(r.1.ans, b) + r.1.path ==
        Terminated(c.ans, b) + c.path + Kept(str, i, c.levels[DoubleQuoteLevel], c.levels[SingleQuoteLevel])
  }

  lemma ReadKeeps(str: string, b: char, bound: int, i: nat, s: State, c: Ctx, ch: string, width: nat)
    requires i < |str| && bound <= |str| - 1 && Inv(s, c) && s != Err && b != '"' && b != '\''
    requires ReadAt(str, i, c.levels[DoubleQuoteLevel], c.levels[SingleQuoteLevel], ch, width)
    requires i + width <= |str|
    requires KeepsFrom(str, b, bound, i + width, Next(s, ch, c, [b]).0, Next(s, ch, c, [b]).1)
    ensures KeepsFrom(str, b, bound, i, s, c)
  {
    ghost var n := Next(s, ch, c, [b]);
    ScanReads(str, [b], bound, i, s, c, ch, width);
    ghost var r := Scan(str, [b], bound, i, s, c);
    assert r == Scan(str, [b], bound, i + width, n.0, n.1);
    var dq, sq := c.levels[DoubleQuoteLevel], c.levels[SingleQuoteLevel];
    ReadKept(str, i, dq, sq, ch, width);
    NextKeeps(s, ch, c, b);
    if r.0 != Err {
      Chain(Terminated(r.1.ans, b) + r.1.path, Terminated(n.1.ans, b) + n.1.path, Terminated(c.ans, b) + c.path,
            ch, Kept(str, i + width, n.1.levels[DoubleQuoteLevel], n.1.levels[SingleQuoteLevel]), Kept(str, i, dq, sq));
    }
  }

  /** At `i` the scan reads `ch`, `width` characters long: not an escape,
      not skipped whitespace, and `Array<` as one read. */
  predicate ReadAt(str: string, i: nat, dq: int, sq: int, ch: string, width: nat) {
    && i < |str| && str[i] != '\\' && (str[i] in Invisible ==> sq != 0 || dq != 0)
    && (|| (str[i] !in Invisible && StartsArray(str, i) && ch == "Array<" && width == 6)
        || (!(str[i] !in Invisible && StartsArray(str, i)) && ch == [str[i]] && width == 1))
  }

  /** What is kept of one read: the text read, then the rest with the
      quote flags moved as the read moves them. */
  lemma ReadKept(str: string, i: nat, dq: int, sq: int, ch: string, width: nat)
    requires ReadAt(str, i, dq, sq, ch, width)
    ensures i + width <= |str|
    ensures Kept(str, i, dq, sq) == ch + Kept(str, i + width, Toggled(ch, "\"", dq, sq), Toggled(ch, "'", sq, dq))
  {
    if width == 6 {
      KeptArray(str, i, dq, sq);
      assert Toggled(ch, "\"", dq, sq) == dq && Toggled(ch, "'", sq, dq) == sq;
    } else {
      KeptOne(str, i, dq, sq);
    }
  }

  lemma Chain(whole: string, mid: string, start: string, ch: string, rest: string, kept: string)
    requires whole == mid + rest && mid == start + ch && kept == ch + rest
    ensures whole == start + kept
  {
  }

  lemma EscapeKeeps(str: string, b: char, bound: int, i: nat, s: State, c: Ctx)
    requires i < |str| && bound <= |str| - 1 && Inv(s, c) && s != Err
    requires str[i] == '\\' && i < bound
    requires var n1 := NextOther(s, "\\", c);
      var n2 := NextOther(n1.0, [str[i + 1]], n1.1);
      KeepsFrom(str, b, bound, i + 2, n2.0, n2.1)
    ensures KeepsFrom(str, b, bound, i, s, c)
  {
    ScanEscapes(str, [b], bound, i, s, c);
    EscapeNext(s, c, str[i + 1]);
    var ch := [str[i], str[i + 1]];
    var dq, sq := c.levels[DoubleQuoteLevel], c.levels[SingleQuoteLevel];
    KeptEscape(str, i, dq, sq);
    ghost var r := Scan(str, [b], bound, i, s, c);
    if r.0 != Err {
      Chain(Terminated(r.1.ans, b) + r.1.path, Terminated(c.ans, b) + c.path + ch, Terminated(c.ans, b) + c.path,
            ch, Kept(str, i + 2, dq, sq), Kept(str, i, dq, sq));
    }
  }

  /** A backslash and the character after it go to the buffer unchanged. */
  lemma EscapeNext(s: State, c: Ctx, x: char)
    requires s != Err
    ensures var n1 := NextOther(s, "\\", c);
      NextOther(n1.0, [x], n1.1) == (Normal, Ctx(c.levels, c.path + ['\\', x], c.ans))
  {
    var n1 := NextOther(s, "\\", c);
    assert n1 == (Normal, Ctx(c.levels, c.path + "\\", c.ans));
    assert NextOther(Normal, [x], n1.1) == (Normal, Ctx(c.levels, c.path + "\\" + [x], c.ans));
    assert c.path + "\\" + [x] == c.path + ['\\', x];
  }

  /** `Kept` keeps an escape and the character it escapes. */
  lemma KeptEscape(str: string, i: nat, dq: int, sq: int)
    requires i + 1 < |str| && str[i] == '\\'
    ensures Kept(str, i, dq, sq) == [str[i], str[i + 1]] + Kept(str, i + 2, dq, sq)
  {
    assert KeptStep(str, i, dq, sq) == ([str[i], str[i + 1]], i + 2, dq, sq);
  }

  /** Over the whole scan, by induction on what is left to read. */
  lemma {:induction false} ScanKeeps(str: string, b: char, bound: int, i: nat, s: State, c: Ctx)
    requires i <= |str| && bound <= |str| - 1 && Inv(s, c) && b != '"' && b != '\''
    ensures KeepsFrom(str, b, bound, i, s, c)
    decreases |str| - i, 1
  {
    var dq, sq := c.levels[DoubleQuoteLevel], c.levels[SingleQuoteLevel];
    if i == |str| || s == Err {
    } else if str[i] in Invisible && sq == 0 && dq == 0 {
      ScanKeepsSkip(str, b, bound, i, s, c);
    } else if str[i] == '\\' {
      if i < bound {
        ScanKeepsEscape(str, b, bound, i, s, c);
      } else {
        ScanUnterminated(str, [b], bound, i, s, c);
      }
    } else {
      var arr := str[i] !in Invisible && StartsArray(str, i);
      var ch: string, width: nat := if arr then "Array<" else [str[i]], if arr then 6 else 1;
      ScanKeepsRead(str, b, bound, i, s, c, ch, width);
    }
  }

  lemma {:induction false} ScanKeepsSkip(str: string, b: char, bound: int, i: nat, s: State, c: Ctx)
    requires i < |str| && bound <= |str| - 1 && Inv(s, c) && s != Err && b != '"' && b != '\''
    requires str[i] in Invisible && c.levels[SingleQuoteLevel] == 0 && c.levels[DoubleQuoteLevel] == 0
    ensures KeepsFrom(str, b, bound, i, s, c)
    decreases |str| - i, 0
  {
    var dq, sq := c.levels[DoubleQuoteLevel], c.levels[SingleQuoteLevel];
    ScanSkips(str, [b], bound, i, s, c);
    ScanKeeps(str, b, bound, i + 1, s, c);
    assert Kept(str, i, dq, sq) == Kept(str, i + 1, dq, sq) by {
      assert KeptStep(str, i, dq, sq) == ("", i + 1, dq, sq);
    }
  }

  lemma {:induction false} ScanKeepsEscape(str: string, b: char, bound: int, i: nat, s: State, c: Ctx)
    requires i < |str| && bound <= |str| - 1 && Inv(s, c) && s != Err && b != '"' && b != '\''
    requires str[i] == '\\' && i < bound
    ensures KeepsFrom(str, b, bound, i, s, c)
    decreases |str| - i, 0
  {
    ghost var n1 := NextOther(s, "\\", c);
    FireKeepsInv(s, OtherInput, "\\", -1, c);
    FireKeepsInv(n1.0, OtherInput, [str[i + 1]], -1, n1.1);
    ghost var n2 := NextOther(n1.0, [str[i + 1]], n1.1);
    ScanKeeps(str, b, bound, i + 2, n2.0, n2.1);
    EscapeKeeps(str, b, bound, i, s, c);
  }

  lemma {:induction false} ScanKeepsRead(str: string, b: char, bound: int, i: nat, s: State, c: Ctx, ch: string, width: nat)
    requires i < |str| && bound <= |str| - 1 && Inv(s, c) && s != Err && b != '"' && b != '\''
    requires ReadAt(str, i, c.levels[DoubleQuoteLevel], c.levels[SingleQuoteLevel], ch, width)
    ensures KeepsFrom(str, b, bound, i, s, c)
    decreases |str| - i, 0
  {
    NextKeepsInv(s, ch, c, [b]);
    ghost var n := Next(s, ch, c, [b]);
    ReadKept(str, i, c.levels[DoubleQuoteLevel], c.levels[SingleQuoteLevel], ch, width);
    ScanKeeps(str, b, bound, i + width, n.0, n.1);
    ReadKeeps(str, b, bound, i, s, c, ch, width);
  }

  /** Splitting on one break character and joining the segments with it
      gives back the input with the whitespace outside quotes removed. */
  lemma SplitThenJoin(raw: string, b: char)
    requires b !in Invisible && b != '"' && b != '\''
    ensures SplitAstriction(raw, [b]).Ok? ==> Join(SplitAstriction(raw, [b]).value, b) == Kept(raw, 0, 0, 0)
  {
    var str := raw + [b];
    var bound := |raw| - 1;
    var r := Scan(str, [b], bound, 0, Split, InitialCtx);
    assert SplitAstriction(raw, [b]) == Finish(r);
    if Finish(r).Ok? {
      assert r.0 != Err && AllZero(r.1.levels);
      assert Inv(Split, InitialCtx) by {
        assert AllZero(InitialCtx.levels) && AllNonNegative(InitialCtx.levels);
      }
      FinishedScanKeeps(str, b, bound, InitialCtx);
      KeptSnoc(raw, b, 0, 0, 0);
      TerminatedIsJoin(r.1.ans, b);
      JoinFromTerminated(Join(r.1.ans, b), Kept(raw, 0, 0, 0), b);
    }
  }

  /** A scan of the input and its break character that ends without error
      and with every guard closed has emitted segments that, each closed by
      the break character, are everything it kept. */
  lemma FinishedScanKeeps(str: string, b: char, bound: int, c: Ctx)
    requires |str| > 0 && str[|str| - 1] == b && bound <= |str| - 2
    requires b !in Invisible && b != '"' && b != '\''
    requires Inv(Split, c) && c.ans == [] && c.path == ""
    ensures var r := Scan(str, [b], bound, 0, Split, c);
      r.0 != Err && AllZero(r.1.levels) ==> r.1.ans != [] && Terminated(r.1.ans, b) == Kept(str, 0, 0, 0)
  {
    var r := Scan(str, [b], bound, 0, Split, c);
    if r.0 != Err && AllZero(r.1.levels) {
      ScanKeeps(str, b, bound, 0, Split, c);
      assert c.levels[DoubleQuoteLevel] == 0 && c.levels[SingleQuoteLevel] == 0;
      assert Terminated(c.ans, b) + c.path == "";
      KeptFromStart(Terminated(r.1.ans, b), r.1.path, Kept(str, 0, 0, 0));
      ScanEndsSplit(str, [b], bound, 0, Split, c);
      ScanFacts(str, [b], bound, 0, Split, c);
      assert r.1.path == "";
    }
  }

  lemma KeptFromStart(t: string, path: string, kept: string)
    requires t + path == "" + "" + kept
    ensures path == "" ==> t == kept
  {
    assert "" + "" + kept == kept;
    if path == "" {
      assert t + path == t;
    }
  }

  lemma JoinFromTerminated(joined: string, kept: string, b: char)
    requires joined + [b] == kept + [b]
    ensures joined == kept
  {
    assert joined == (joined + [b])[..|joined|] == (kept + [b])[..|kept|] == kept;
  }

  // ---------------------------------------------------------------------
  // Examples.

  /** A character the automaton reads as ordinary content whatever its
      state: not whitespace, not a backslash, not a break character, not a
      guard and not the start of `Array<`. */
  predicate Ordinary(x: char, breakPoints: seq<char>) {
    x !in Invisible && x != '\\' && x !in breakPoints && [x] !in GuardMap && x != 'A'
  }

  /** A run of ordinary characters is appended to the buffer, in NORMAL. */
  lemma {:induction false} ScanOrdinary(str: string, breakPoints: seq<char>, bound: int, i: nat, j: nat, s: State, c: Ctx)
    requires i < j <= |str| && bound <= |str| - 1 && |c.levels| == GuardCount && s != Err
    requires forall k | i <= k < j :: Ordinary(str[k], breakPoints)
    ensures Scan(str, breakPoints, bound, i, s, c) ==
      Scan(str, breakPoints, bound, j, Normal, Ctx(c.levels, c.path + str[i..j], c.ans))
    decreases j - i
  {
    assert Ordinary(str[i], breakPoints);
    assert !StartsArray(str, i);
    ScanReads(str, breakPoints, bound, i, s, c, [str[i]], 1);
    var c1 := Ctx(c.levels, c.path + [str[i]], c.ans);
    assert Next(s, [str[i]], c, breakPoints) == (Normal, c1);
    if i + 1 < j {
      ScanOrdinary(str, breakPoints, bound, i + 1, j, Normal, c1);
      assert c1.path + str[i + 1..j] == c.path + str[i..j];
    } else {
      assert str[i..j] == [str[i]];
    }
  }

  /** A break character with every guard closed ends the segment. */
  lemma ScanBreaks(str: string, breakPoints: seq<char>, bound: int, i: nat, c: Ctx)
    requires i < |str| && bound <= |str| - 1 && |c.levels| == GuardCount && AllZero(c.levels)
    requires str[i] in breakPoints && str[i] !in Invisible && str[i] != '\\' && str[i] != 'A'
    ensures Scan(str, breakPoints, bound, i, Normal, c) ==
      Scan(str, breakPoints, bound, i + 1, Split, Ctx(c.levels, "", c.ans + [c.path]))
  {
    ScanReads(str, breakPoints, bound, i, Normal, c, [str[i]], 1);
  }

  /** A run of ordinary characters closed by a break character, read in
      SPLIT with every guard closed, is emitted as one segment. */
  lemma ScanMember(str: string, breakPoints: seq<char>, bound: int, i: nat, j: nat, c: Ctx)
    requires i < j < |str| && bound <= |str| - 1 && |c.levels| == GuardCount && AllZero(c.levels) && c.path == ""
    requires forall k | i <= k < j :: Ordinary(str[k], breakPoints)
    requires str[j] in breakPoints && str[j] !in Invisible && str[j] != '\\' && str[j] != 'A'
    ensures Scan(str, breakPoints, bound, i, Split, c) ==
      Scan(str, breakPoints, bound, j + 1, Split, Ctx(c.levels, "", c.ans + [str[i..j]]))
  {
    ScanOrdinary(str, breakPoints, bound, i, j, Split, c);
    ScanBreaks(str, breakPoints, bound, j, Ctx(c.levels, c.path + str[i..j], c.ans));
    assert c.path + str[i..j] == str[i..j];
  }

  /** A double quote, with no quote open, opens a quoted literal. */
  lemma ScanOpensQuote(str: string, breakPoints: seq<char>, bound: int, i: nat, s: State, c: Ctx)
    requires i < |str| && bound <= |str| - 1 && Inv(s, c) && s != Err
    requires str[i] == '"' && '"' !in breakPoints
    requires c.levels[DoubleQuoteLevel] == 0 && c.levels[SingleQuoteLevel] == 0
    ensures Scan(str, breakPoints, bound, i, s, c) ==
      Scan(str, breakPoints, bound, i + 1, Normal, Ctx(c.levels[DoubleQuoteLevel := 1], c.path + "\"", c.ans))
  {
    ScanReads(str, breakPoints, bound, i, s, c, "\"", 1);
    NextOpensQuote(s, c, breakPoints);
  }

  lemma NextOpensQuote(s: State, c: Ctx, breakPoints: seq<char>)
    requires Inv(s, c) && s != Err && '"' !in breakPoints
    requires c.levels[DoubleQuoteLevel] == 0 && c.levels[SingleQuoteLevel] == 0
    ensures Next(s, "\"", c, breakPoints) == (Normal, Ctx(c.levels[DoubleQuoteLevel := 1], c.path + "\"", c.ans))
  {
    assert Route("\"", c.levels, breakPoints) == (9, DoubleQuoteLevel);
    if s == Normal {
      assert Next(s, "\"", c, breakPoints) == HandleNormalLeft(Payload("\"", DoubleQuoteLevel, c));
    } else {
      assert Next(s, "\"", c, breakPoints) == HandleSplitLeft(Payload("\"", DoubleQuoteLevel, c));
    }
  }

  /** A double quote inside a double-quoted literal closes it. */
  lemma ScanClosesQuote(str: string, breakPoints: seq<char>, bound: int, i: nat, c: Ctx)
    requires i < |str| && bound <= |str| - 1 && Inv(Normal, c)
    requires str[i] == '"' && '"' !in breakPoints
    requires c.levels[DoubleQuoteLevel] == 1
    ensures Scan(str, breakPoints, bound, i, Normal, c) ==
      Scan(str, breakPoints, bound, i + 1, Normal, Ctx(c.levels[DoubleQuoteLevel := 0], c.path + "\"", c.ans))
  {
    ScanReads(str, breakPoints, bound, i, Normal, c, "\"", 1);
    assert Route("\"", c.levels, breakPoints) == (10, DoubleQuoteLevel);
  }

  /** Inside a quoted literal a break character is content. */
  lemma ScanQuotedBreak(str: string, breakPoints: seq<char>, bound: int, i: nat, c: Ctx)
    requires i < |str| && bound <= |str| - 1 && Inv(Normal, c)
    requires str[i] in breakPoints && str[i] !in Invisible && str[i] != '\\' && str[i] != 'A'
    requires c.levels[DoubleQuoteLevel] == 1
    ensures Scan(str, breakPoints, bound, i, Normal, c) ==
      Scan(str, breakPoints, bound, i + 1, Normal, Ctx(c.levels, c.path + [str[i]], c.ans))
  {
    ScanReads(str, breakPoints, bound, i, Normal, c, [str[i]], 1);
  }

  const Zeros: seq<int> := [0, 0, 0, 0, 0, 0]

  /** The splitter starts at a segment boundary with every counter at zero. */
  lemma InitialInv()
    ensures Inv(Split, InitialCtx) && AllZero(InitialCtx.levels) && InitialCtx.levels == Zeros
    ensures InitialCtx.path == "" && InitialCtx.ans == []
  {
    assert AllZero(InitialCtx.levels) && AllNonNegative(InitialCtx.levels);
  }

  lemma SplitIsScan(raw: string, bps: seq<char>)
    requires |bps| > 0
    ensures SplitAstriction(raw, bps) == Finish(Scan(raw + [bps[0]], bps, |raw| - 1, 0, Split, InitialCtx))
  {
  }

  /** A non-empty run of ordinary characters at `i`, closed by the break
      character, is one more segment. */
  lemma ScanSegmentAt(str: string, b: char, bound: int, i: nat, m: string, c: Ctx)
    requires m != [] && i + |m| < |str| && str[i..i + |m|] == m && str[i + |m|] == b && bound <= |str| - 1
    requires |c.levels| == GuardCount && AllZero(c.levels) && c.path == ""
    requires forall k | 0 <= k < |m| :: Ordinary(m[k], [b])
    requires b !in Invisible && b != '\\' && b != 'A'
    ensures Scan(str, [b], bound, i, Split, c) ==
      Scan(str, [b], bound, i + |m| + 1, Split, Ctx(c.levels, "", c.ans + [m]))
  {
    assert forall k | i <= k < i + |m| :: str[k] == m[k - i];
    ScanMember(str, [b], bound, i, i + |m|, c);
  }

  /** Two members, each closed by the break character. */
  lemma ScanTwoMembers(str: string, b: char, bound: int, x: string, y: string, c: Ctx)
    requires x != [] && y != [] && str == x + [b] + y + [b] && bound <= |str| - 1
    requires |c.levels| == GuardCount && AllZero(c.levels) && c.path == ""
    requires forall k | 0 <= k < |x| :: Ordinary(x[k], [b])
    requires forall k | 0 <= k < |y| :: Ordinary(y[k], [b])
    requires b !in Invisible && b != '\\' && b != 'A'
    ensures Scan(str, [b], bound, 0, Split, c) == (Split, Ctx(c.levels, "", c.ans + [x, y]))
  {
    assert str[0..|x|] == x && str[|x|] == b;
    ScanSegmentAt(str, b, bound, 0, x, c);
    var c1 := Ctx(c.levels, "", c.ans + [x]);
    var j := |x| + 1;
    assert str[j..j + |y|] == y && str[j + |y|] == b;
    ScanSegmentAt(str, b, bound, j, y, c1);
    assert c1.ans + [y] == c.ans + [x, y];
  }

  lemma WordsAreOrdinary(x: string, y: string, b: char)
    requires x == "number" && y == "string" && b == '|'
    ensures forall k | 0 <= k < |x| :: Ordinary(x[k], [b])
    ensures forall k | 0 <= k < |y| :: Ordinary(y[k], [b])
  {
    forall k | 0 <= k < 6 ensures Ordinary(x[k], [b]) && Ordinary(y[k], [b]) {
      assert x[k] in "number" && y[k] in "string";
    }
  }

  /** `number|string` splits into its two members. */
  lemma SplitsTwoMembers(raw: string, bps: seq<char>)
    requires raw == "number|string" && bps == ['|']
    ensures SplitAstriction(raw, bps) == Ok(["number", "string"])
  {
    var str := raw + [bps[0]];
    assert str == "number" + ['|'] + "string" + ['|'];
    WordsAreOrdinary("number", "string", '|');
    InitialInv();
    ScanTwoMembers(str, '|', |raw| - 1, "number", "string", InitialCtx);
    assert [] + ["number", "string"] == ["number", "string"];
    SplitIsScan(raw, bps);
  }

  lemma ScansQuotedBreak(str: string, bps: seq<char>, bound: int)
    requires str == "\"|\"|" && bps == ['|'] && bound == 2
    ensures Scan(str, bps, bound, 0, Split, InitialCtx) == (Split, Ctx(Zeros, "", ["\"|\""]))
  {
    InitialInv();
    ScanQuotedSegment(str, bps, bound, 0, InitialCtx, '|');
    var seg := "\"" + ['|'] + "\"";
    assert |seg| == 3 && seg[0] == '"' && seg[1] == '|' && seg[2] == '"';
    assert seg == "\"|\"";
    assert InitialCtx.ans + [seg] == ["\"|\""];
  }

  /** From a segment boundary, `"b"` and then `b`, where `b` is the break
      character: one segment holding the quoted break character. */
  lemma ScanQuotedSegment(str: string, bps: seq<char>, bound: int, i: nat, c: Ctx, b: char)
    requires i + 3 < |str| && bound <= |str| - 1 && Inv(Split, c) && AllZero(c.levels)
    requires str[i] == '"' && str[i + 1] == b && str[i + 2] == '"' && str[i + 3] == b
    requires bps == [b] && b !in Invisible && b != '\\' && b != 'A' && b != '"'
    ensures Scan(str, bps, bound, i, Split, c) ==
      Scan(str, bps, bound, i + 4, Split, Ctx(c.levels, "", c.ans + ["\"" + [b] + "\""]))
  {
    ScanQuoteOpened(str, bps, bound, i, c, b);
    ScanQuoteClosed(str, bps, bound, i + 2, c, b);
  }

  /** The opening quote and the break character inside it. */
  lemma ScanQuoteOpened(str: string, bps: seq<char>, bound: int, i: nat, c: Ctx, b: char)
    requires i + 1 < |str| && bound <= |str| - 1 && Inv(Split, c) && AllZero(c.levels)
    requires str[i] == '"' && str[i + 1] == b
    requires bps == [b] && b !in Invisible && b != '\\' && b != 'A' && b != '"'
    ensures Scan(str, bps, bound, i, Split, c) ==
      Scan(str, bps, bound, i + 2, Normal, Ctx(c.levels[DoubleQuoteLevel := 1], "\"" + [b], c.ans))
  {
    ScanOpensQuote(str, bps, bound, i, Split, c);
    var c1 := Ctx(c.levels[DoubleQuoteLevel := 1], "\"", c.ans);
    assert c.path + "\"" == "\"";
    OpenQuoteInv(c, "\"");
    ScanQuotedBreak(str, bps, bound, i + 1, c1);
  }

  /** The closing quote and the break character after it. */
  lemma ScanQuoteClosed(str: string, bps: seq<char>, bound: int, i: nat, c: Ctx, b: char)
    requires i + 1 < |str| && bound <= |str| - 1 && Inv(Split, c) && AllZero(c.levels)
    requires str[i] == '"' && str[i + 1] == b
    requires bps == [b] && b !in Invisible && b != '\\' && b != 'A' && b != '"'
    ensures Scan(str, bps, bound, i, Normal, Ctx(c.levels[DoubleQuoteLevel := 1], "\"" + [b], c.ans)) ==
      Scan(str, bps, bound, i + 2, Split, Ctx(c.levels, "", c.ans + ["\"" + [b] + "\""]))
  {
    var c2 := Ctx(c.levels[DoubleQuoteLevel := 1], "\"" + [b], c.ans);
    OpenQuoteInv(c, c2.path);
    ScanClosesQuote(str, bps, bound, i, c2);
    assert c2.levels[DoubleQuoteLevel := 0] == c.levels;
    ScanBreaks(str, bps, bound, i + 1, Ctx(c.levels, c2.path + "\"", c.ans));
  }

  /** Opening a double quote from a segment boundary keeps the invariant. */
  lemma OpenQuoteInv(c: Ctx, path: string)
    requires Inv(Split, c) && AllZero(c.levels) && path != ""
    ensures Inv(Normal, Ctx(c.levels[DoubleQuoteLevel := 1], path, c.ans))
    ensures c.levels[DoubleQuoteLevel := 1][DoubleQuoteLevel] == 1
  {
  }

  /** A break character inside a quoted literal does not split it. */
  lemma QuoteProtectsBreak(raw: string, bps: seq<char>)
    requires raw == "\"|\"" && bps == ['|']
    ensures SplitAstriction(raw, bps) == Ok(["\"|\""])
  {
    var str := raw + [bps[0]];
    assert str == "\"|\"|";
    ScansQuotedBreak(str, bps, |raw| - 1);
  }

  /** A text of ordinary characters is one segment. */
  lemma SplitsOrdinaryText(raw: string, b: char)
    requires raw != [] && forall k | 0 <= k < |raw| :: Ordinary(raw[k], [b])
    requires b !in Invisible && b != '\\' && b != 'A'
    ensures SplitAstriction(raw, [b]) == Ok([raw])
  {
    var str := raw + [b];
    SplitIsScan(raw, [b]);
    assert forall k | 0 <= k < |raw| :: str[k] == raw[k];
    ScanMember(str, [b], |raw| - 1, 0, |raw|, InitialCtx);
    assert str[0..|raw|] == raw;
    assert [] + [raw] == [raw];
  }

  /** `open` and `close` are the guards of `{}`, `()` or `[]`, the pair
      counted at `level`. */
  predicate PairGuards(open: char, close: char, level: nat) {
    && [open] in GuardMap && GuardMap[[open]] == Nq(2 * level + 1, level)
    && [close] in GuardMap && GuardMap[[close]] == Nq(2 * level + 2, level)
    && level < DoubleQuoteLevel && open != 'A' && close != 'A'
  }

  /** `b` can serve as the break character after such a pair. */
  predicate Closer(b: char, open: char, close: char) {
    b !in Invisible && b != '\\' && b != 'A' && b != open && b != close
  }

  /** An opening guard of `{}`, `()` or `[]` (the pair counted at `level`)
      followed by its closing one, with every guard closed before, is read
      as content and closes again. */
  lemma ScanClosedPair(str: string, breakPoints: seq<char>, bound: int, i: nat, s: State, c: Ctx,
                       open: char, close: char, level: nat)
    requires i + 1 < |str| && bound <= |str| - 1 && Inv(s, c) && s != Err && AllZero(c.levels)
    requires str[i] == open && str[i + 1] == close && open !in breakPoints && close !in breakPoints
    requires PairGuards(open, close, level)
    ensures Scan(str, breakPoints, bound, i, s, c) ==
      Scan(str, breakPoints, bound, i + 2, Normal, Ctx(c.levels, c.path + [open, close], c.ans))
  {
    assert !StartsArray(str, i) && !StartsArray(str, i + 1);
    ScanReads(str, breakPoints, bound, i, s, c, [open], 1);
    ReadOpenGuard(s, c, open, close, level, breakPoints);
    var c1 := Ctx(c.levels[level := 1], c.path + [open], c.ans);
    ScanReads(str, breakPoints, bound, i + 1, Normal, c1, [close], 1);
    ReadCloseGuard(c, c1, open, close, level, breakPoints);
  }

  /** The opening guard of a pair, with every counter at zero, counts one. */
  lemma ReadOpenGuard(s: State, c: Ctx, open: char, close: char, level: nat, breakPoints: seq<char>)
    requires Inv(s, c) && s != Err && AllZero(c.levels) && open !in breakPoints
    requires PairGuards(open, close, level)
    ensures Next(s, [open], c, breakPoints) == (Normal, Ctx(c.levels[level := 1], c.path + [open], c.ans))
  {
    assert Route([open], c.levels, breakPoints) == (2 * level + 1, level);
  }

  /** Its closing guard counts it back to zero. */
  lemma ReadCloseGuard(c: Ctx, c1: Ctx, open: char, close: char, level: nat, breakPoints: seq<char>)
    requires |c.levels| == GuardCount && AllZero(c.levels) && close !in breakPoints
    requires PairGuards(open, close, level)
    requires c1 == Ctx(c.levels[level := 1], c.path + [open], c.ans)
    ensures Next(Normal, [close], c1, breakPoints) == (Normal, Ctx(c.levels, c.path + [open, close], c.ans))
  {
    assert Route([close], c1.levels, breakPoints) == (2 * level + 2, level);
    assert c1.levels[level := 0] == c.levels;
    assert c1.path + [close] == c.path + [open, close];
  }

  /** An empty guard pair and then the break character that ends the text. */
  lemma ScanPairThenBreak(str: string, b: char, bound: int, i: nat, s: State, c: Ctx, open: char, close: char, level: nat)
    requires i + 3 == |str| && bound <= |str| - 1 && Inv(s, c) && s != Err && AllZero(c.levels)
    requires str[i] == open && str[i + 1] == close && str[i + 2] == b
    requires PairGuards(open, close, level)
    requires Closer(b, open, close)
    ensures Scan(str, [b], bound, i, s, c) == (Split, Ctx(c.levels, "", c.ans + [c.path + [open, close]]))
  {
    ScanClosedPair(str, [b], bound, i, s, c, open, close, level);
    var c2 := Ctx(c.levels, c.path + [open, close], c.ans);
    ScanBreaks(str, [b], bound, i + 2, c2);
  }

  /** The scan behind `SplitsOrdinaryThenPair` when the run is empty. */
  lemma ScanPairAlone(str: string, open: char, close: char, level: nat, b: char)
    requires str == [open, close, b]
    requires PairGuards(open, close, level)
    requires Closer(b, open, close)
    ensures Scan(str, [b], 1, 0, Split, InitialCtx) == (Split, Ctx(Zeros, "", [[open, close]]))
  {
    assert Inv(Split, InitialCtx) && AllZero(InitialCtx.levels);
    ScanPairThenBreak(str, b, 1, 0, Split, InitialCtx, open, close, level);
    assert InitialCtx.path == "" && InitialCtx.ans == [];
    assert InitialCtx.path + [open, close] == [open, close];
    assert InitialCtx.ans + [[open, close]] == [[open, close]];
  }

  /** A leading run of ordinary characters, read from the start. */
  lemma ScanLeadingRun(str: string, m: string, b: char, bound: int)
    requires m != [] && |m| < |str| && str[..|m|] == m && bound <= |str| - 1
    requires forall k | 0 <= k < |m| :: Ordinary(m[k], [b])
    ensures Scan(str, [b], bound, 0, Split, InitialCtx) == Scan(str, [b], bound, |m|, Normal, Ctx(Zeros, m, []))
  {
    assert forall k | 0 <= k < |m| :: str[k] == m[k];
    ScanOrdinary(str, [b], bound, 0, |m|, Split, InitialCtx);
    assert str[0..|m|] == m;
    assert Ctx(InitialCtx.levels, InitialCtx.path + str[0..|m|], InitialCtx.ans) == Ctx(Zeros, m, []);
  }

  /** The scan behind `SplitsOrdinaryThenPair` when the run is not empty. */
  lemma ScanOrdinaryThenPair(str: string, m: string, open: char, close: char, level: nat, b: char)
    requires str == m + [open, close, b] && m != []
    requires forall k | 0 <= k < |m| :: Ordinary(m[k], [b])
    requires PairGuards(open, close, level)
    requires Closer(b, open, close)
    ensures Scan(str, [b], |str| - 2, 0, Split, InitialCtx) == (Split, Ctx(Zeros, "", [m + [open, close]]))
  {
    assert str[..|m|] == m;
    ScanLeadingRun(str, m, b, |str| - 2);
    var c := Ctx(Zeros, m, []);
    NormalZeros(m);
    ScanPairAfterRun(str, c, open, close, level, b);
    assert c.ans + [c.path + [open, close]] == [m + [open, close]];
  }

  /** The pair and the break character after a non-empty buffer. */
  lemma ScanPairAfterRun(str: string, c: Ctx, open: char, close: char, level: nat, b: char)
    requires Inv(Normal, c) && AllZero(c.levels) && str == c.path + [open, close, b]
    requires PairGuards(open, close, level)
    requires Closer(b, open, close)
    ensures Scan(str, [b], |str| - 2, |c.path|, Normal, c) == (Split, Ctx(c.levels, "", c.ans + [c.path + [open, close]]))
  {
    var i := |c.path|;
    assert str[i] == open && str[i + 1] == close && str[i + 2] == b;
    ScanPairThenBreak(str, b, |str| - 2, i, Normal, c, open, close, level);
  }

  /** A buffer with every counter at zero and nothing emitted. */
  lemma NormalZeros(m: string)
    requires m != []
    ensures Inv(Normal, Ctx(Zeros, m, [])) && AllZero(Zeros)
  {
  }

  /** A run of ordinary characters (maybe none) followed by an empty guard
      pair is one segment. */
  lemma SplitsOrdinaryThenPair(m: string, open: char, close: char, level: nat, b: char)
    requires forall k | 0 <= k < |m| :: Ordinary(m[k], [b])
    requires PairGuards(open, close, level)
    requires Closer(b, open, close)
    ensures SplitAstriction(m + [open, close], [b]) == Ok([m + [open, close]])
  {
    var raw := m + [open, close];
    SplitIsScan(raw, [b]);
    assert raw + [b] == m + [open, close, b];
    if m == [] {
      assert raw == [open, close] && |raw| - 1 == 1;
      ScanPairAlone(raw + [b], open, close, level, b);
    } else {
      ScanOrdinaryThenPair(raw + [b], m, open, close, level, b);
    }
  }

  /** The empty text is rejected, whatever the break character. */
  lemma RejectsEmptyText(b: char)
    requires b !in Invisible && b != '\\' && b != 'A'
    ensures SplitAstriction("", [b]) == TypeError
  {
    SplitIsScan("", [b]);
    assert "" + [b] == [b];
    ScanReads([b], [b], -1, 0, Split, InitialCtx, [b], 1);
  }

  /** A text that starts with the break character is rejected: the first
      thing read is a break in SPLIT, an empty segment. */
  lemma RejectsLeadingBreak(rest: string, b: char)
    requires b !in Invisible && b != '\\' && b != 'A'
    ensures SplitAstriction([b] + rest, [b]) == TypeError
  {
    var raw := [b] + rest;
    var str := raw + [b];
    SplitIsScan(raw, [b]);
    InitialInv();
    ScanReads(str, [b], |raw| - 1, 0, Split, InitialCtx, [b], 1);
  }

  /** A text of ordinary characters followed by one of the break
      characters is rejected: the appended first break character closes an
      empty segment. */
  lemma RejectsTrailingBreak(m: string, breakPoints: seq<char>, x: char)
    requires m != [] && forall k | 0 <= k < |m| :: Ordinary(m[k], breakPoints)
    requires x in breakPoints && x !in Invisible && x != '\\' && x != 'A'
    requires breakPoints[0] !in Invisible && breakPoints[0] != '\\' && breakPoints[0] != 'A'
    ensures SplitAstriction(m + [x], breakPoints) == TypeError
  {
    var raw := m + [x];
    var str := raw + [breakPoints[0]];
    SplitIsScan(raw, breakPoints);
    InitialInv();
    assert str[|m|] == x;
    ScanMember(str, breakPoints, |raw| - 1, 0, |m|, InitialCtx);
    var c1 := Ctx(InitialCtx.levels, "", InitialCtx.ans + [str[0..|m|]]);
    ScanReads(str, breakPoints, |raw| - 1, |m| + 1, Split, c1, [breakPoints[0]], 1);
  }

  /** The empty text, a lone break character and a break character at
      either end are rejected. */
  lemma RejectsEmptyMembers()
    ensures SplitAstriction("", ['|']) == TypeError
    ensures SplitAstriction("|", ['|']) == TypeError
    ensures SplitAstriction("|a", ['|']) == TypeError
    ensures SplitAstriction("a|", ['|']) == TypeError
  {
    RejectsEmptyText('|');
    RejectsLeadingBreak("", '|');
    assert ['|'] + "" == "|";
    RejectsLeadingBreak("a", '|');
    assert ['|'] + "a" == "|a";
    assert Ordinary("a"[0], ['|']);
    RejectsTrailingBreak("a", ['|'], '|');
    assert "a" + ['|'] == "a|";
  }

  /** A guard text of one character that opens, or closes, counter `level`
      (the braces, parentheses, angle and square brackets). */
  predicate OpenGuard(open: char, level: nat) {
    [open] in GuardMap && GuardMap[[open]] == Nq(2 * level + 1, level) && level < DoubleQuoteLevel
  }

  predicate CloseGuard(close: char, level: nat) {
    [close] in GuardMap && GuardMap[[close]] == Nq(2 * level + 2, level) && level < DoubleQuoteLevel
  }

  /** A one-character guard is none of whitespace, a backslash or `A`. */
  lemma GuardIsPlain(x: char)
    requires [x] in GuardMap
    ensures x !in Invisible && x != '\\' && x != 'A'
  {
    assert x in "{}()>[]\"'" by {
      assert [x] in GuardMap.Keys;
    }
  }

  /** Reading an opening guard outside a quote: from SPLIT it always opens;
      from NORMAL it opens while no counter is negative. */
  lemma NextOpens(s: State, c: Ctx, open: char, level: nat, breakPoints: seq<char>)
    requires |c.levels| == GuardCount && OpenGuard(open, level) && open !in breakPoints
    requires s == Split || (s == Normal && AllNonNegative(c.levels))
    ensures Next(s, [open], c, breakPoints) ==
      (Normal, Ctx(c.levels[level := c.levels[level] + 1], c.path + [open], c.ans))
  {
    assert Route([open], c.levels, breakPoints) == (2 * level + 1, level);
  }

  /** Reading a closing guard: it closes one level, in NORMAL, while no
      counter is negative and its own counter is positive; with its counter
      at zero, or in SPLIT, the automaton goes to ERR. */
  lemma NextCloses(s: State, c: Ctx, close: char, level: nat, breakPoints: seq<char>)
    requires |c.levels| == GuardCount && CloseGuard(close, level) && close !in breakPoints
    ensures s == Normal && AllNonNegative(c.levels) && c.levels[level] > 0 ==>
      Next(s, [close], c, breakPoints) == (Normal, Ctx(c.levels[level := c.levels[level] - 1], c.path + [close], c.ans))
    ensures c.levels[level] == 0 || s == Split ==> Next(s, [close], c, breakPoints).0 == Err
  {
    assert Route([close], c.levels, breakPoints) == (2 * level + 2, level);
  }

  /** A closing guard read while its counter is zero ends the scan in ERR. */
  lemma ScanUnopenedClose(str: string, breakPoints: seq<char>, bound: int, i: nat, s: State, c: Ctx, level: nat)
    requires i < |str| && bound <= |str| - 1 && |c.levels| == GuardCount && s != Err
    requires CloseGuard(str[i], level) && str[i] !in breakPoints && c.levels[level] == 0
    ensures Scan(str, breakPoints, bound, i, s, c).0 == Err
  {
    GuardIsPlain(str[i]);
    assert !StartsArray(str, i);
    ScanReads(str, breakPoints, bound, i, s, c, [str[i]], 1);
    NextCloses(s, c, str[i], level, breakPoints);
  }

  /** A closing guard with nothing open is rejected: a text that starts
      with one throws, whatever follows. */
  lemma RejectsUnopenedClose(rest: string, breakPoints: seq<char>, close: char, level: nat)
    requires breakPoints != [] && CloseGuard(close, level) && close !in breakPoints
    ensures SplitAstriction([close] + rest, breakPoints) == TypeError
  {
    var raw := [close] + rest;
    SplitIsScan(raw, breakPoints);
    InitialInv();
    ScanUnopenedClose(raw + [breakPoints[0]], breakPoints, |raw| - 1, 0, Split, InitialCtx, level);
  }

  /** An opening guard, a run of ordinary characters and the closing guard,
      read in NORMAL or SPLIT with no counter negative, leave the counters as
      they were and append the group to the buffer. */
  lemma ScanGroup(str: string, breakPoints: seq<char>, bound: int, i: nat, j: nat, s: State, c: Ctx,
                  open: char, close: char, level: nat)
    requires i + 1 < j < |str| && bound <= |str| - 1 && |c.levels| == GuardCount && AllNonNegative(c.levels)
    requires s == Normal || s == Split
    requires PairGuards(open, close, level) && open !in breakPoints && close !in breakPoints
    requires str[i] == open && str[j] == close && forall k | i < k < j :: Ordinary(str[k], breakPoints)
    ensures Scan(str, breakPoints, bound, i, s, c) ==
      Scan(str, breakPoints, bound, j + 1, Normal, Ctx(c.levels, c.path + str[i..j + 1], c.ans))
  {
    GuardIsPlain(open);
    assert !StartsArray(str, i);
    ScanReads(str, breakPoints, bound, i, s, c, [open], 1);
    NextOpens(s, c, open, level, breakPoints);
    var c1 := Ctx(c.levels[level := c.levels[level] + 1], c.path + [open], c.ans);
    ScanOrdinary(str, breakPoints, bound, i + 1, j, Normal, c1);
    var c2 := Ctx(c1.levels, c1.path + str[i + 1..j], c.ans);
    GroupCloses(str, breakPoints, bound, i, j, c, c2, close, level);
  }

  lemma GroupCloses(str: string, breakPoints: seq<char>, bound: int, i: nat, j: nat, c: Ctx, c2: Ctx,
                    close: char, level: nat)
    requires i < j < |str| && bound <= |str| - 1 && |c.levels| == GuardCount && AllNonNegative(c.levels)
    requires PairGuards(str[i], close, level) && close !in breakPoints && str[j] == close
    requires c2 == Ctx(c.levels[level := c.levels[level] + 1], c.path + [str[i]] + str[i + 1..j], c.ans)
    ensures Scan(str, breakPoints, bound, j, Normal, c2) ==
      Scan(str, breakPoints, bound, j + 1, Normal, Ctx(c.levels, c.path + str[i..j + 1], c.ans))
  {
    GuardIsPlain(close);
    assert !StartsArray(str, j);
    ScanReads(str, breakPoints, bound, j, Normal, c2, [close], 1);
    assert AllNonNegative(c2.levels) && c2.levels[level] > 0;
    NextCloses(Normal, c2, close, level, breakPoints);
    assert c2.levels[level := c2.levels[level] - 1] == c.levels;
    assert str[i..j + 1] == [str[i]] + str[i + 1..j] + [close];
    assert c2.path + [close] == c.path + ([str[i]] + str[i + 1..j] + [close]);
  }

  lemma NumberFieldIsOrdinary(str: string, i: nat, breakPoints: seq<char>)
    requires i + 8 <= |str| && str[i..i + 8] == "a:number" && breakPoints == ['|']
    ensures forall k | i <= k < i + 8 :: Ordinary(str[k], breakPoints)
  {
    forall k | i <= k < i + 8 ensures Ordinary(str[k], breakPoints) {
      assert str[k] == str[i..i + 8][k - i];
      assert str[k] in "a:number";
    }
  }

  /** One closing brace too many: the second `}` finds its counter at zero. */
  lemma RejectsExtraClose(raw: string, bps: seq<char>)
    requires raw == "{a:number}}" && bps == ['|']
    ensures SplitAstriction(raw, bps) == TypeError
  {
    var str := raw + bps;
    SplitIsScan(raw, bps);
    InitialInv();
    NumberFieldIsOrdinary(str, 1, bps);
    ScanGroup(str, bps, |raw| - 1, 0, 9, Split, InitialCtx, '{', '}', 0);
    ScanUnopenedClose(str, bps, |raw| - 1, 10, Normal, Ctx(InitialCtx.levels, str[0..10], []), 0);
  }

  /** One opening brace too many: the `|` appended at the end is read as
      content inside the open brace, and a counter is still open at the end. */
  lemma RejectsExtraOpen(raw: string, bps: seq<char>)
    requires raw == "{{a:number}" && bps == ['|']
    ensures SplitAstriction(raw, bps) == TypeError
  {
    var m := "a:number";
    forall k | 0 <= k < |m| ensures Ordinary(m[k], bps) {
      assert m[k] in m;
    }
    assert raw == ['{', '{'] + m + ['}'];
    RejectsUnclosedGroup(m, '|', '{', '}', 0);
  }

  /** An opening guard left open before a closed group of ordinary
      characters: the text throws, since a counter is still open at the end. */
  lemma RejectsUnclosedGroup(m: string, b: char, open: char, close: char, level: nat)
    requires m != [] && forall k | 0 <= k < |m| :: Ordinary(m[k], [b])
    requires PairGuards(open, close, level) && Closer(b, open, close)
    ensures SplitAstriction([open, open] + m + [close], [b]) == TypeError
  {
    var raw := [open, open] + m + [close];
    var str := raw + [b];
    var bps := [b];
    SplitIsScan(raw, bps);
    InitialInv();
    var c1 := ScanOpenAt(str, bps, |raw| - 1, 0, Split, InitialCtx, open, level);
    assert AllNonNegative(c1.levels) && !AllZero(c1.levels) by { assert c1.levels[level] == 1; }
    var j := |m| + 2;
    assert str[1] == open && str[j] == close && str[|str| - 1] == b;
    assert forall k | 1 < k < j :: str[k] == m[k - 2];
    ScanGroup(str, bps, |raw| - 1, 1, j, Normal, c1, open, close, level);
    assert j + 1 == |str| - 1;
    OpenAtEnd(str, bps, |raw| - 1, Ctx(c1.levels, c1.path + str[1..j + 1], []));
  }

  /** An opening guard read in SPLIT, or in NORMAL with no counter negative,
      counts its level up and is appended to the buffer. */
  lemma ScanOpenAt(str: string, breakPoints: seq<char>, bound: int, i: nat, s: State, c: Ctx,
                   open: char, level: nat) returns (c1: Ctx)
    requires i < |str| && bound <= |str| - 1 && |c.levels| == GuardCount
    requires s == Split || (s == Normal && AllNonNegative(c.levels))
    requires str[i] == open && OpenGuard(open, level) && open !in breakPoints
    ensures c1 == Ctx(c.levels[level := c.levels[level] + 1], c.path + [open], c.ans)
    ensures Scan(str, breakPoints, bound, i, s, c) == Scan(str, breakPoints, bound, i + 1, Normal, c1)
  {
    GuardIsPlain(open);
    assert !StartsArray(str, i);
    ScanReads(str, breakPoints, bound, i, s, c, [open], 1);
    NextOpens(s, c, open, level, breakPoints);
    c1 := Ctx(c.levels[level := c.levels[level] + 1], c.path + [open], c.ans);
  }

  /** The appended break character, read in NORMAL with a counter still
      open, is content; the scan ends with that counter open. */
  lemma OpenAtEnd(str: string, breakPoints: seq<char>, bound: int, c: Ctx)
    requires |str| > 0 && bound <= |str| - 1 && |c.levels| == GuardCount
    requires AllNonNegative(c.levels) && !AllZero(c.levels)
    requires str[|str| - 1] in breakPoints && str[|str| - 1] !in Invisible && str[|str| - 1] != '\\' && str[|str| - 1] != 'A'
    ensures Finish(Scan(str, breakPoints, bound, |str| - 1, Normal, c)) == TypeError
  {
    ScanReads(str, breakPoints, bound, |str| - 1, Normal, c, [str[|str| - 1]], 1);
  }


  // ---------------------------------------------------------------------
  // A backslash at the end of the input.

  /** As written, a backslash that ends the input escapes the appended break
      character, so the last segment is never closed and is dropped: `a\`
      splits into no segments at all, although joining them should give back
      `a\`. With the test on the input itself it is rejected. */
  lemma TrailingBackslashDropsSegment()
    ensures SplitAstrictionAsWritten("a\\", ['|']) == Ok([])
    ensures Kept("a\\", 0, 0, 0) == "a\\" && Join([], '|') != "a\\"
    ensures SplitAstriction("a\\", ['|']) == TypeError
  {
    assert Ordinary("a"[0], ['|']);
    assert "a" + "\\" == "a\\";
    AsWrittenEscapesBreak("a", '|');
    TrailingBackslashRejected("a", '|');
    assert Kept("a\\", 0, 0, 0) == "a" + Kept("a\\", 1, 0, 0);
  }

  /** As written: after a run of ordinary characters, the backslash escapes
      the appended break character and no segment is ever closed. */
  lemma AsWrittenEscapesBreak(m: string, b: char)
    requires m != [] && forall k | 0 <= k < |m| :: Ordinary(m[k], [b])
    requires b !in Invisible && b != '\\' && b != 'A'
    ensures SplitAstrictionAsWritten(m + "\\", [b]) == Ok([])
  {
    var raw := m + "\\";
    var str := raw + [b];
    assert str[..|m|] == m && str[|m|] == '\\' && str[|m| + 1] == b;
    ScanLeadingRun(str, m, b, |raw|);
    ScanEscapes(str, [b], |raw|, |m|, Normal, Ctx(Zeros, m, []));
    assert AllZero(Zeros);
  }

  /** Away from a backslash that ends the input, the end-of-input test is
      never reached with a backslash, so both bounds scan alike. */
  lemma {:induction false} ScanBoundsAgree(str: string, breakPoints: seq<char>, i: nat, s: State, c: Ctx)
    requires |str| > 0 && i <= |str| && |c.levels| == GuardCount
    requires |str| == 1 || str[|str| - 2] != '\\'
    ensures Scan(str, breakPoints, |str| - 2, i, s, c) == Scan(str, breakPoints, |str| - 1, i, s, c)
    decreases |str| - i
  {
    var lo := |str| - 2;
    if i == |str| || s == Err {
    } else if str[i] in Invisible {
      if c.levels[SingleQuoteLevel] == 0 && c.levels[DoubleQuoteLevel] == 0 {
        ScanBoundsAgree(str, breakPoints, i + 1, s, c);
      } else {
        var (s1, c1) := Next(s, [str[i]], c, breakPoints);
        ScanBoundsAgree(str, breakPoints, i + 1, s1, c1);
      }
    } else if str[i] == '\\' {
      assert i != lo;
      if i < lo {
        var (s1, c1) := NextOther(s, "\\", c);
        var (s2, c2) := NextOther(s1, [str[i + 1]], c1);
        ScanBoundsAgree(str, breakPoints, i + 2, s2, c2);
      }
    } else if StartsArray(str, i) {
      var (s1, c1) := Next(s, "Array<", c, breakPoints);
      ScanBoundsAgree(str, breakPoints, i + 6, s1, c1);
    } else {
      var (s1, c1) := Next(s, [str[i]], c, breakPoints);
      ScanBoundsAgree(str, breakPoints, i + 1, s1, c1);
    }
  }

  /** The two end-of-input tests differ only on an input that ends in a
      backslash: on every other input the splitter as written and the
      corrected one give the same result. */
  lemma AsWrittenAgrees(raw: string, breakPoints: seq<char>)
    requires raw == "" || raw[|raw| - 1] != '\\'
    ensures SplitAstrictionAsWritten(raw, breakPoints) == SplitAstriction(raw, breakPoints)
  {
    if |breakPoints| > 0 {
      var str := raw + [breakPoints[0]];
      assert raw != "" ==> str[|str| - 2] == raw[|raw| - 1];
      ScanBoundsAgree(str, breakPoints, 0, Split, InitialCtx);
    }
  }

  /** Corrected: the same backslash is at the end of the input and throws. */
  lemma TrailingBackslashRejected(m: string, b: char)
    requires m != [] && forall k | 0 <= k < |m| :: Ordinary(m[k], [b])
    requires b !in Invisible && b != '\\' && b != 'A'
    ensures SplitAstriction(m + "\\", [b]) == TypeError
  {
    var raw := m + "\\";
    var str := raw + [b];
    SplitIsScan(raw, [b]);
    assert str[..|m|] == m && str[|m|] == '\\';
    ScanLeadingRun(str, m, b, |raw| - 1);
    ScanUnterminated(str, [b], |raw| - 1, |m|, Normal, Ctx(Zeros, m, []));
  }
}
