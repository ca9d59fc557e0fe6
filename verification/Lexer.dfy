/**
The comment and string stripper of the source scanner.  The scanner has two copies of it
(`strip_comments_and_strings` and `strip_comments`); they share one loop and differ only in the
table that classifies the file extension.  The loop keeps five boolean flags.  Here the loop is
proved to run a six-mode automaton, and the automaton is proved to blank exactly the comments and
strings of a token grammar, to keep every position, and to be idempotent.
*/
module Lexer {

  /** The extension table: which comment and string forms the stripper recognises. */
  datatype Dialect = Dialect(cLike: bool, script: bool, xml: bool, python: bool, stripStrings: bool)

  const C_LIKE := {"rs", "go", "js", "jsx", "ts", "tsx", "java", "kt", "cs", "c", "h", "cpp", "hpp",
                   "swift", "m", "mm", "scala", "php"}
  const CONFIG_FORMATS := {"yaml", "yml", "toml", "conf", "cnf", "xml"}

  function SourceDialect(ext: string): Dialect {
    Dialect(ext in C_LIKE, ext in {"py", "rb", "sh", "yaml", "yml", "toml", "conf", "cnf"},
            ext == "xml", ext == "py", ext !in CONFIG_FORMATS)
  }

  function SideChannelDialect(ext: string): Dialect {
    Dialect(ext in C_LIKE, ext in {"py", "rb", "sh"}, ext == "xml", ext == "py", true)
  }

  datatype Mode = Code | Line | Block | Xml | Triple(quote: char) | Str(quote: char)

  /** The backslash flag belongs to no mode: leaving a string does not clear it. */
  datatype State = State(mode: Mode, escaped: bool)

  const START := State(Code, false)

  predicate IsNewline(c: char) { c == '\n' || c == '\r' }

  predicate IsQuote(c: char) { c == '"' || c == '\'' || c == '`' }

  predicate ValidState(st: State) {
    (st.mode.Triple? || st.mode.Str?) ==> IsQuote(st.mode.quote)
  }

  /** One turn of the automaton: how many characters it takes, whether it blanks them, and where it goes. */
  datatype Move = Move(width: nat, blank: bool, next: State)

  predicate Starts2(s: string, a: char, b: char) { |s| > 1 && s[0] == a && s[1] == b }

  predicate Starts3(s: string, a: char, b: char, c: char) { |s| > 2 && s[0] == a && s[1] == b && s[2] == c }

  predicate Starts4(s: string, a: char, b: char, c: char, e: char) {
    |s| > 3 && s[0] == a && s[1] == b && s[2] == c && s[3] == e
  }

  function Keep(st: State): Move { Move(1, false, st) }

  function Blank(width: nat, mode: Mode, escaped: bool): Move { Move(width, true, State(mode, escaped)) }

  function Next(d: Dialect, st: State, s: string): (m: Move)
    requires s != []
    ensures 1 <= m.width <= |s|
  {
    var c, e := s[0], st.escaped;
    if IsNewline(c) then
      Keep(if st.mode == Line || (st.mode.Str? && st.mode.quote != '`') then State(Code, e) else st)
    else match st.mode
      case Line => Blank(1, Line, e)
      case Block => if d.cLike && Starts2(s, '*', '/') then Blank(2, Code, e) else Blank(1, Block, e)
      case Xml => if Starts3(s, '-', '-', '>') then Blank(3, Code, e) else Blank(1, Xml, e)
      case Triple(q) =>
        if Starts3(s, q, q, q) then Blank(3, Code, e)
        else Blank(1, Triple(q), e)
      case Str(q) =>
        if e then Blank(1, Str(q), false)
        else if c == '\\' then Blank(1, Str(q), true)
        else if c == q then Blank(1, Code, e)
        else Blank(1, Str(q), e)
      case Code =>
        if d.cLike && Starts2(s, '/', '*') then Blank(2, Block, e)
        else if d.xml && Starts4(s, '<', '!', '-', '-') then Blank(4, Xml, e)
        else if d.cLike && Starts2(s, '/', '/') then Blank(2, Line, e)
        else if d.script && c == '#' then Blank(1, Line, e)
        else if d.python && (c == '"' || c == '\'') && Starts3(s, c, c, c) then Blank(3, Triple(c), e)
        else if d.stripStrings && (c == '"' || c == '\'' || (d.cLike && c == '`')) then Blank(1, Str(c), e)
        else Keep(st)
  }

  function Spaces(n: nat): (r: string)
    ensures |r| == n && forall i :: 0 <= i < n ==> r[i] == ' '
  {
    seq(n, _ => ' ')
  }

  function Emit(m: Move, s: string): string
    requires s != []
  {
    if m.blank then Spaces(m.width) else [s[0]]
  }

  /** Any machine of this shape: each turn takes at least one character and no more than there are. */
  type Machine = f: (State, string) -> Move | forall st, s :: s != [] ==> 1 <= f(st, s).width <= |s|
    witness (st, s) => Keep(st)

  /** The machine's output on the rest of the text, from a given state. */
  function Run(f: Machine, st: State, s: string): string
    decreases |s|
  {
    if s == [] then [] else Emit(f(st, s), s) + Run(f, f(st, s).next, s[f(st, s).width..])
  }

  /** The state after the whole text. */
  function Final(f: Machine, st: State, s: string): State
    decreases |s|
  {
    if s == [] then st else Final(f, f(st, s).next, s[f(st, s).width..])
  }

  function Stripper(d: Dialect): Machine {
    (st: State, s: string) => if s == [] then Keep(st) else Next(d, st, s)
  }

  function Strip(d: Dialect, s: string): string { Run(Stripper(d), START, s) }

  // ---------------------------------------------------------------------------
  // The loop with its five flags
  // ---------------------------------------------------------------------------

  /** The loop's flags, as the source keeps them. */
  datatype Flags = Flags(line: bool, block: bool, str: bool, strChar: char, escaped: bool,
                         triple: bool, tripleChar: char, xml: bool)

  const NO_FLAGS := Flags(false, false, false, '\0', false, false, '\0', false)

  /** At most one mode flag is set, and the set flag (if any) names the automaton's mode. */
  ghost predicate Shows(f: Flags, st: State) {
    && f.escaped == st.escaped
    && f.line == st.mode.Line? && f.block == st.mode.Block? && f.xml == st.mode.Xml?
    && f.triple == st.mode.Triple? && (f.triple ==> f.tripleChar == st.mode.quote)
    && f.str == st.mode.Str? && (f.str ==> f.strChar == st.mode.quote)
  }

  /** One turn of the loop body: the new flags, how far to advance, and whether the character is kept. */
  method Turn(d: Dialect, chars: string, i: nat, was: Flags, ghost st: State) returns (f: Flags, width: nat, keep: bool)
    requires i < |chars| && Shows(was, st)
    ensures var m := Next(d, st, chars[i..]);
            width == m.width && keep == !m.blank && Shows(f, m.next)
  {
    var c := chars[i];
    f, width, keep := was, 1, false;
    if c == '\n' || c == '\r' {
      f := f.(line := false);
      if f.str && f.strChar != '`' {
        f := f.(str := false, strChar := '\0');
      }
      keep := true;
    } else if f.line {
    } else if f.block {
      if d.cLike && i + 1 < |chars| && chars[i] == '*' && chars[i + 1] == '/' {
        width, f := 2, f.(block := false);
      }
    } else if f.xml {
      if i + 2 < |chars| && chars[i] == '-' && chars[i + 1] == '-' && chars[i + 2] == '>' {
        width, f := 3, f.(xml := false);
      }
    } else if f.triple {
      var tc := f.tripleChar;
      if i + 2 < |chars| && chars[i] == tc && chars[i + 1] == tc && chars[i + 2] == tc {
        width, f := 3, f.(triple := false, tripleChar := '\0');
      }
    } else if f.str {
      if f.escaped {
        f := f.(escaped := false);
      } else if c == '\\' {
        f := f.(escaped := true);
      } else if c == f.strChar {
        f := f.(str := false, strChar := '\0');
      }
    } else if d.cLike && i + 1 < |chars| && chars[i] == '/' && chars[i + 1] == '*' {
      width, f := 2, f.(block := true);
    } else if d.xml && i + 3 < |chars|
              && chars[i] == '<' && chars[i + 1] == '!' && chars[i + 2] == '-' && chars[i + 3] == '-' {
      width, f := 4, f.(xml := true);
    } else if d.cLike && i + 1 < |chars| && chars[i] == '/' && chars[i + 1] == '/' {
      width, f := 2, f.(line := true);
    } else if d.script && c == '#' {
      f := f.(line := true);
    } else if d.python && i + 2 < |chars| && (c == '"' || c == '\'') && chars[i + 1] == c && chars[i + 2] == c {
      width, f := 3, f.(triple := true, tripleChar := c);
    } else if d.stripStrings && (c == '"' || c == '\'' || (d.cLike && c == '`')) {
      f := f.(str := true, strChar := c);
    } else {
      keep := true;
    }
  }

  /** One turn with its output: what is out so far, and what the machine makes of the rest, stay the whole output. */
  method Advance(d: Dialect, chars: string, i: nat, was: Flags, done: string, ghost st: State, ghost f: Machine,
                 ghost whole: string)
    returns (flags: Flags, j: nat, out: string, ghost st': State)
    requires i < |chars| && Shows(was, st) && f(st, chars[i..]) == Next(d, st, chars[i..])
    requires whole == done + Run(f, st, chars[i..])
    ensures i < j <= |chars| && Shows(flags, st') && whole == out + Run(f, st', chars[j..])
  {
    var width, keep;
    flags, width, keep := Turn(d, chars, i, was, st);
    st' := f(st, chars[i..]).next;
    var piece := if keep then [chars[i]] else Spaces(width);
    Unfold(f, whole, done, st, chars[i..], piece, width, keep);
    j, out := i + width, done + piece;
    assert chars[j..] == chars[i..][width..];
  }

  method StripWith(d: Dialect, chars: string) returns (out: string)
    ensures out == Strip(d, chars)
  {
    out := [];
    var i, flags := 0, NO_FLAGS;
    ghost var st := START;
    while i < |chars|
      invariant 0 <= i <= |chars| && Shows(flags, st)
      invariant Strip(d, chars) == out + Run(Stripper(d), st, chars[i..])
    {
      flags, i, out, st := Advance(d, chars, i, flags, out, st, Stripper(d), Strip(d, chars));
    }
  }

  lemma Unfold(f: Machine, whole: string, out: string, st: State, s: string, piece: string, width: nat, keep: bool)
    requires s != [] && whole == out + Run(f, st, s)
    requires width == f(st, s).width && keep == !f(st, s).blank && piece == if keep then [s[0]] else Spaces(width)
    ensures width <= |s| && whole == (out + piece) + Run(f, f(st, s).next, s[width..])
  {
    Regroup(out, Emit(f(st, s), s), Run(f, f(st, s).next, s[width..]));
  }

  method StripCommentsAndStrings(text: string, ext: string) returns (out: string)
    ensures out == Strip(SourceDialect(ext), text)
  {
    out := StripWith(SourceDialect(ext), text);
  }

  method StripComments(text: string, ext: string) returns (out: string)
    ensures out == Strip(SideChannelDialect(ext), text)
  {
    out := StripWith(SideChannelDialect(ext), text);
  }

  // ---------------------------------------------------------------------------
  // Positions, newlines and lines
  // ---------------------------------------------------------------------------

  /** Same length; each character is kept or blanked, and a line break is never blanked. */
  ghost predicate Masks(out: string, s: string) {
    && |out| == |s|
    && forall i :: 0 <= i < |s| ==> out[i] == s[i] || (out[i] == ' ' && !IsNewline(s[i]))
  }

  /** A turn blanks no line break, and keeps one character at a time. */
  ghost predicate SparesBreaks(f: Machine) {
    forall st, s :: s != [] ==>
      if f(st, s).blank then forall i :: 0 <= i < f(st, s).width ==> !IsNewline(s[i]) else f(st, s).width == 1
  }

  lemma StripperSparesBreaks(d: Dialect)
    ensures SparesBreaks(Stripper(d))
  {
  }

  lemma {:induction false} RunMasks(f: Machine, st: State, s: string)
    requires SparesBreaks(f)
    ensures Masks(Run(f, st, s), s)
    decreases |s|
  {
    if s != [] {
      var m := f(st, s);
      var rest := Run(f, m.next, s[m.width..]);
      RunMasks(f, m.next, s[m.width..]);
      forall i | m.width <= i < |s|
        ensures rest[i - m.width] == s[i] || (rest[i - m.width] == ' ' && !IsNewline(s[i]))
      {
        assert s[m.width..][i - m.width] == s[i];
      }
    }
  }

  /** The output is aligned with the input, column by column. */
  lemma StripMasks(d: Dialect, s: string)
    ensures Masks(Strip(d, s), s)
  {
    StripperSparesBreaks(d);
    RunMasks(Stripper(d), START, s);
  }

  /** The line iterator of the source language: split after LF, drop the LF and a CR before it. */
  function Lines(s: string): seq<string>
    decreases |s|
  {
    if s == [] then [] else
      var k := FirstBreak(s);
      if k == |s| then [s] else [DropCr(s[..k])] + Lines(s[k + 1..])
  }

  function FirstBreak(s: string): (k: nat)
    ensures k <= |s|
    ensures k < |s| ==> s[k] == '\n'
    ensures forall i :: 0 <= i < k ==> s[i] != '\n'
  {
    if s == [] || s[0] == '\n' then 0 else 1 + FirstBreak(s[1..])
  }

  function DropCr(s: string): string {
    if s != [] && s[|s| - 1] == '\r' then s[..|s| - 1] else s
  }

  /** The scanner zips raw lines with stripped lines: as many of each, each masked by its partner. */
  ghost predicate LinesMask(out: seq<string>, raw: seq<string>) {
    |out| == |raw| && forall i :: 0 <= i < |raw| ==> Masks(out[i], raw[i])
  }

  lemma LinesMaskCons(x: string, y: string, out: seq<string>, raw: seq<string>)
    requires LinesMask(out, raw) && Masks(x, y)
    ensures LinesMask([x] + out, [y] + raw)
  {
  }

  lemma MaskedBreak(out: string, s: string)
    requires Masks(out, s)
    ensures FirstBreak(out) == FirstBreak(s)
  {
  }

  lemma MaskedHead(out: string, s: string, k: nat)
    requires Masks(out, s) && k < |s|
    ensures Masks(DropCr(out[..k]), DropCr(s[..k])) && Masks(out[k + 1..], s[k + 1..])
  {
    assert forall i :: k < i < |s| ==> out[k + 1..][i - k - 1] == out[i] && s[k + 1..][i - k - 1] == s[i];
  }

  lemma LastLineMasks(out: string, s: string)
    requires Masks(out, s) && s != [] && FirstBreak(s) == |s| && FirstBreak(out) == |out|
    ensures LinesMask(Lines(out), Lines(s))
  {
  }

  lemma FirstLineMasks(out: string, s: string, k: nat)
    requires s != [] && |out| == |s| && k < |s| && FirstBreak(s) == k && FirstBreak(out) == k
    requires Masks(DropCr(out[..k]), DropCr(s[..k])) && LinesMask(Lines(out[k + 1..]), Lines(s[k + 1..]))
    ensures LinesMask(Lines(out), Lines(s))
  {
    LinesMaskCons(DropCr(out[..k]), DropCr(s[..k]), Lines(out[k + 1..]), Lines(s[k + 1..]));
  }

  /** The pairing is line by line, column by column. */
  lemma {:induction false} MaskedLinesPair(out: string, s: string)
    requires Masks(out, s)
    ensures LinesMask(Lines(out), Lines(s))
    decreases |s|
  {
    if s != [] {
      var k := FirstBreak(s);
      MaskedBreak(out, s);
      if k == |s| {
        LastLineMasks(out, s);
      } else {
        MaskedHead(out, s, k);
        MaskedLinesPair(out[k + 1..], s[k + 1..]);
        FirstLineMasks(out, s, k);
      }
    }
  }

  lemma StrippedLinesPair(text: string, ext: string)
    ensures LinesMask(Lines(Strip(SourceDialect(ext), text)), Lines(text))
  {
    StripMasks(SourceDialect(ext), text);
    MaskedLinesPair(Strip(SourceDialect(ext), text), text);
  }

  // ---------------------------------------------------------------------------
  // Stripping twice
  // ---------------------------------------------------------------------------

  /** No position of the text opens a comment or a string. */
  ghost predicate Quiet(f: Machine, s: string) {
    s == [] || (f(START, s) == Keep(START) && Quiet(f, s[1..]))
  }

  /** A kept character still opens nothing when what follows it is masked, and a blank never opens anything. */
  ghost predicate MaskingSilences(f: Machine) {
    && (forall st, s, out :: s != [] && !f(st, s).blank && Masks(out, s[1..]) ==> f(START, [s[0]] + out) == Keep(START))
    && (forall out :: f(START, " " + out) == Keep(START))
  }

  lemma MaskedCodeStaysQuiet(d: Dialect, st: State, s: string, out: string)
    requires s != [] && !Next(d, st, s).blank && Masks(out, s[1..])
    ensures Next(d, START, [s[0]] + out) == Keep(START)
  {
    var t := [s[0]] + out;
    assert forall i :: 1 <= i < |s| ==> t[i] == out[i - 1] && s[i] == s[1..][i - 1];
  }

  lemma StripperSilences(d: Dialect)
    ensures MaskingSilences(Stripper(d))
  {
    var f := Stripper(d);
    forall st, s, out | s != [] && !f(st, s).blank && Masks(out, s[1..])
      ensures f(START, [s[0]] + out) == Keep(START)
    {
      MaskedCodeStaysQuiet(d, st, s, out);
    }
  }

  lemma {:induction false} BlanksStayQuiet(f: Machine, n: nat, s: string)
    requires MaskingSilences(f) && Quiet(f, s)
    ensures Quiet(f, Spaces(n) + s)
  {
    if n == 0 {
      assert Spaces(0) + s == s;
    } else {
      BlanksStayQuiet(f, n - 1, s);
      assert Spaces(n) + s == " " + (Spaces(n - 1) + s);
      assert (Spaces(n) + s)[1..] == Spaces(n - 1) + s;
    }
  }

  lemma {:induction false} RunIsQuiet(f: Machine, st: State, s: string)
    requires SparesBreaks(f) && MaskingSilences(f)
    ensures Quiet(f, Run(f, st, s))
    decreases |s|
  {
    if s != [] {
      var m := f(st, s);
      var rest := Run(f, m.next, s[m.width..]);
      RunIsQuiet(f, m.next, s[m.width..]);
      if m.blank {
        BlanksStayQuiet(f, m.width, rest);
      } else {
        RunMasks(f, m.next, s[1..]);
        assert ([s[0]] + rest)[1..] == rest;
      }
    }
  }

  lemma {:induction false} QuietIsFixed(f: Machine, s: string)
    requires Quiet(f, s)
    ensures Run(f, START, s) == s
  {
    if s != [] {
      QuietIsFixed(f, s[1..]);
    }
  }

  /** Stripping twice is stripping once. */
  lemma StripIdempotent(d: Dialect, s: string)
    ensures Strip(d, Strip(d, s)) == Strip(d, s)
  {
    var f := Stripper(d);
    StripperSparesBreaks(d);
    StripperSilences(d);
    RunIsQuiet(f, START, s);
    QuietIsFixed(f, Run(f, START, s));
  }

  // ---------------------------------------------------------------------------
  // The two copies
  // ---------------------------------------------------------------------------

  /** The two copies agree on every text exactly when the extension is not a configuration format. */
  lemma CopiesAgreeIff(ext: string)
    ensures (forall s :: Strip(SourceDialect(ext), s) == Strip(SideChannelDialect(ext), s))
            <==> ext !in CONFIG_FORMATS
  {
    if ext in CONFIG_FORMATS {
      OneCharacter(Stripper(SourceDialect(ext)), START, '"');
      OneCharacter(Stripper(SideChannelDialect(ext)), START, '"');
      assert Strip(SourceDialect(ext), "\"") != Strip(SideChannelDialect(ext), "\"");
    } else {
      assert SourceDialect(ext) == SideChannelDialect(ext);
    }
  }

  lemma OneCharacter(f: Machine, st: State, c: char)
    ensures Run(f, st, [c]) == [if f(st, [c]).blank then ' ' else c]
  {
    assert [c][1..] == [];
  }

  // ---------------------------------------------------------------------------
  // Line by line
  // ---------------------------------------------------------------------------

  ghost predicate EndsLine(a: string) { a != [] && IsNewline(a[|a| - 1]) }

  /** No opener or closer contains a line break, so none straddles one. */
  ghost predicate StopsAt(f: Machine, st: State, a: string, b: string) {
    EndsLine(a) && ValidState(st) ==> f(st, a + b) == f(st, a) && ValidState(f(st, a).next)
  }

  ghost predicate StopsAtBreaks(f: Machine) {
    forall st, a, b :: StopsAt(f, st, a, b)
  }

  lemma StripperStopsAtBreaks(d: Dialect)
    ensures StopsAtBreaks(Stripper(d))
  {
    forall st, a, b
      ensures StopsAt(Stripper(d), st, a, b)
    {
      if EndsLine(a) && ValidState(st) {
        NextStopsAtBreak(d, st, a, b);
      }
    }
  }

  lemma NextStopsAtBreak(d: Dialect, st: State, a: string, b: string)
    requires EndsLine(a) && ValidState(st)
    ensures Next(d, st, a + b) == Next(d, st, a)
    ensures ValidState(Next(d, st, a).next)
  {
    var t := a + b;
    assert forall i :: 0 <= i < |a| ==> t[i] == a[i];
  }

  lemma {:induction false} RunConcat(f: Machine, st: State, a: string, b: string)
    requires StopsAtBreaks(f) && ValidState(st)
    requires a == [] || EndsLine(a)
    ensures Run(f, st, a + b) == Run(f, st, a) + Run(f, Final(f, st, a), b)
    decreases |a|
  {
    if a == [] {
      assert a + b == b;
    } else {
      var m := f(st, a);
      assert StopsAt(f, st, a, b);
      FirstTurn(f, st, a, b);
      RunConcat(f, m.next, a[m.width..], b);
      FirstTurnAlone(f, st, a);
      Regroup(Emit(m, a), Run(f, m.next, a[m.width..]), Run(f, Final(f, st, a), b));
    }
  }

  lemma FirstTurnAlone(f: Machine, st: State, a: string)
    requires a != []
    ensures var m := f(st, a);
            && Run(f, st, a) == Emit(m, a) + Run(f, m.next, a[m.width..])
            && Final(f, st, a) == Final(f, m.next, a[m.width..])
  {
  }

  lemma FirstTurn(f: Machine, st: State, a: string, b: string)
    requires a != [] && f(st, a + b) == f(st, a)
    ensures var m := f(st, a);
            Run(f, st, a + b) == Emit(m, a) + Run(f, m.next, a[m.width..] + b)
  {
    assert (a + b)[f(st, a).width..] == a[f(st, a).width..] + b;
  }

  /** After a line break the machine is in code, in a block-like region, or in a back-quoted string. */
  predicate AfterBreak(mode: Mode) { mode != Line && (mode.Str? ==> mode.quote == '`') }

  ghost predicate LeavesLine(f: Machine) {
    forall st, s :: |s| == 1 && IsNewline(s[0]) && ValidState(st) ==> AfterBreak(f(st, s).next.mode)
  }

  lemma {:induction false} FinalAfterBreak(f: Machine, st: State, a: string)
    requires StopsAtBreaks(f) && SparesBreaks(f) && LeavesLine(f) && EndsLine(a) && ValidState(st)
    ensures AfterBreak(Final(f, st, a).mode) && ValidState(Final(f, st, a))
    decreases |a|
  {
    var m := f(st, a);
    assert StopsAt(f, st, a, []);
    if m.width < |a| {
      FinalAfterBreak(f, m.next, a[m.width..]);
    } else {
      assert a[1..] == [];
    }
  }

  /**
   Stripping is line-local at a line end exactly when the automaton is back in its start state there.
   The start state includes a cleared backslash flag, which a line break does not clear.
   */
  lemma LineLocalIff(d: Dialect, a: string)
    requires EndsLine(a)
    ensures (forall b :: Strip(d, a + b) == Strip(d, a) + Strip(d, b)) <==> Final(Stripper(d), START, a) == START
  {
    forall b
      ensures Strip(d, a + b) == Strip(d, a) + Run(Stripper(d), Final(Stripper(d), START, a), b)
    {
      StripConcat(d, a, b);
    }
    if Final(Stripper(d), START, a) != START {
      var b := NotLocal(d, a);
    }
  }

  lemma StripConcat(d: Dialect, a: string, b: string)
    requires EndsLine(a)
    ensures Strip(d, a + b) == Strip(d, a) + Run(Stripper(d), Final(Stripper(d), START, a), b)
  {
    StripperStopsAtBreaks(d);
    RunConcat(Stripper(d), START, a, b);
  }

  lemma NotLocal(d: Dialect, a: string) returns (b: string)
    requires EndsLine(a) && Final(Stripper(d), START, a) != START
    ensures Strip(d, a + b) != Strip(d, a) + Strip(d, b)
  {
    var f := Stripper(d);
    StripperStopsAtBreaks(d);
    StripperSparesBreaks(d);
    FinalAfterBreak(f, START, a);
    if !d.stripStrings {
      NoStringsNoFlag(d, START, a);
    }
    b := Witness(d, Final(f, START, a));
    StripConcat(d, a, b);
    if Strip(d, a + b) == Strip(d, a) + Strip(d, b) {
      SamePrefix(Strip(d, a), Run(f, Final(f, START, a), b), Strip(d, b));
    }
  }

  lemma SamePrefix(p: string, x: string, y: string)
    requires p + x == p + y
    ensures x == y
  {
    assert x == (p + x)[|p|..];
  }

  /** A text that tells the start state from any other state a line can end in. */
  lemma Witness(d: Dialect, st: State) returns (b: string)
    requires st != START && AfterBreak(st.mode) && ValidState(st) && (st.escaped ==> d.stripStrings)
    ensures Run(Stripper(d), st, b) != Run(Stripper(d), START, b)
  {
    var f := Stripper(d);
    if st.mode != Code {
      b := "x";
      OneCharacter(f, st, 'x');
      OneCharacter(f, START, 'x');
    } else {
      b := "\"\"x";
      EmptyStringMoves(d, true);
      EmptyStringMoves(d, false);
      EmptyString(f);
    }
  }

  lemma EmptyStringMoves(d: Dialect, e: bool)
    requires d.stripStrings
    ensures var f := Stripper(d);
            && f(State(Code, e), "\"\"x") == Blank(1, Str('"'), e)
            && f(State(Str('"'), e), "\"x") == (if e then Blank(1, Str('"'), false) else Blank(1, Code, false))
            && f(State(Str('"'), e), "x") == Blank(1, Str('"'), false)
            && f(State(Code, e), "x") == Keep(State(Code, e))
  {
  }

  /** `""x`: an empty string and then code; but all of it string when the backslash flag is up. */
  lemma EmptyString(f: Machine)
    requires forall e :: f(State(Code, e), "\"\"x") == Blank(1, Str('"'), e)
    requires f(State(Str('"'), true), "\"x") == Blank(1, Str('"'), false)
    requires f(State(Str('"'), false), "\"x") == Blank(1, Code, false)
    requires f(State(Str('"'), false), "x") == Blank(1, Str('"'), false)
    requires f(START, "x") == Keep(START)
    ensures Run(f, START, "\"\"x") == "  x"
    ensures Run(f, State(Code, true), "\"\"x") == "   "
  {
    OneCharacter(f, START, 'x');
    OneCharacter(f, State(Str('"'), false), 'x');
    assert "\"x"[1..] == "x" && "\"\"x"[1..] == "\"x" && Spaces(1) == " ";
    assert Run(f, State(Str('"'), true), "\"x") == "  ";
    assert Run(f, State(Str('"'), false), "\"x") == " x";
  }

  /** Only strings raise the backslash flag. */
  lemma {:induction false} NoStringsNoFlag(d: Dialect, st: State, b: string)
    requires !d.stripStrings && !st.mode.Str? && !st.escaped
    ensures !Final(Stripper(d), st, b).escaped
    decreases |b|
  {
    if b != [] {
      var m := Next(d, st, b);
      NoStringsNoFlag(d, m.next, b[m.width..]);
    }
  }

  /** The flag does leak: an unfinished string that ends in a backslash hides code on the next line. */
  lemma BackslashLeaksAcrossLines()
    ensures var d, first, second := SourceDialect("c"), "\"\\\n", "\"\"x";
            Strip(d, first + second) == "  \n" + "   " && Strip(d, first) + Strip(d, second) == "  \n" + "  x"
  {
    var d := SourceDialect("c");
    UnfinishedString(d);
    StripConcat(d, "\"\\\n", "\"\"x");
    EmptyStringRuns(d);
  }

  lemma EmptyStringRuns(d: Dialect)
    requires d.stripStrings
    ensures Strip(d, "\"\"x") == "  x" && Run(Stripper(d), State(Code, true), "\"\"x") == "   "
  {
    EmptyStringMoves(d, true);
    EmptyStringMoves(d, false);
    EmptyString(Stripper(d));
  }

  lemma UnfinishedString(d: Dialect)
    requires d.stripStrings
    ensures Strip(d, "\"\\\n") == "  \n" && Final(Stripper(d), START, "\"\\\n") == State(Code, true)
  {
    UnfinishedStringMoves(d);
    UnfinishedStringRun(Stripper(d));
  }

  lemma UnfinishedStringMoves(d: Dialect)
    requires d.stripStrings
    ensures var f := Stripper(d);
            && f(START, "\"\\\n") == Blank(1, Str('"'), false)
            && f(State(Str('"'), false), "\\\n") == Blank(1, Str('"'), true)
            && f(State(Str('"'), true), "\n") == Keep(State(Code, true))
  {
  }

  lemma UnfinishedStringRun(f: Machine)
    requires f(START, "\"\\\n") == Blank(1, Str('"'), false)
    requires f(State(Str('"'), false), "\\\n") == Blank(1, Str('"'), true)
    requires f(State(Str('"'), true), "\n") == Keep(State(Code, true))
    ensures Run(f, START, "\"\\\n") == "  \n" && Final(f, START, "\"\\\n") == State(Code, true)
  {
    OneCharacter(f, State(Str('"'), true), '\n');
    assert "\n"[1..] == "" && "\\\n"[1..] == "\n" && "\"\\\n"[1..] == "\\\n" && Spaces(1) == " ";
    assert Run(f, State(Str('"'), false), "\\\n") == " \n";
  }

  // ---------------------------------------------------------------------------
  // A grammar of tokens, printed and stripped
  // ---------------------------------------------------------------------------

  datatype Item = Raw(c: char) | Esc(c: char)

  datatype Token =
    | Plain(c: char)
    | Break(c: char)
    | LineComment(opener: string, text: string)
    | BlockComment(text: string)
    | XmlComment(text: string)
    | TripleQuoted(q: char, text: string)
    | Quoted(q: char, items: seq<Item>)

  function PrintItem(item: Item): string {
    match item
    case Raw(c) => [c]
    case Esc(c) => ['\\'] + [c]
  }

  function PrintItems(items: seq<Item>): string {
    if items == [] then [] else PrintItem(items[0]) + PrintItems(items[1..])
  }

  function Print(t: Token): string {
    match t
    case Plain(c) => [c]
    case Break(c) => [c]
    case LineComment(opener, text) => opener + text
    case BlockComment(text) => "/*" + (text + "*/")
    case XmlComment(text) => "<!--" + (text + "-->")
    case TripleQuoted(q, text) => [q, q, q] + (text + [q, q, q])
    case Quoted(q, items) => [q] + (PrintItems(items) + [q])
  }

  /** Everything but line breaks becomes a space. */
  function BlankOut(s: string): (r: string)
    ensures |r| == |s|
    ensures forall i :: 0 <= i < |s| ==> r[i] == if IsNewline(s[i]) then s[i] else ' '
  {
    seq(|s|, i requires 0 <= i < |s| => if IsNewline(s[i]) then s[i] else ' ')
  }

  /** What the stripper should leave of a token: code and line breaks, nothing else. */
  function Residue(t: Token): string {
    if t.Plain? then Print(t) else BlankOut(Print(t))
  }

  /** Some comment or string form of the dialect begins here. */
  predicate Opens(d: Dialect, s: string)
    requires s != []
  {
    || (d.cLike && (Starts2(s, '/', '*') || Starts2(s, '/', '/')))
    || (d.xml && Starts4(s, '<', '!', '-', '-'))
    || (d.script && s[0] == '#')
    || (d.python && (Starts3(s, '"', '"', '"') || Starts3(s, '\'', '\'', '\'')))
    || (d.stripStrings && (s[0] == '"' || s[0] == '\'' || (d.cLike && s[0] == '`')))
  }

  predicate ItemFits(q: char, item: Item) {
    match item
    case Raw(c) => c != q && c != '\\' && (IsNewline(c) ==> q == '`')
    case Esc(c) => !IsNewline(c)
  }

  /** The token is a form of the dialect, and `rest`, what is printed after it, does not merge with it. */
  ghost predicate Fits(d: Dialect, t: Token, rest: string) {
    match t
    case Plain(c) => !IsNewline(c) && !Opens(d, [c] + rest)
    case Break(c) => IsNewline(c)
    case LineComment(opener, text) =>
      && ((d.cLike && opener == "//") || (d.script && opener == "#"))
      && (forall i :: 0 <= i < |text| ==> !IsNewline(text[i]))
      && (rest == [] || IsNewline(rest[0]))
    case BlockComment(text) =>
      d.cLike && forall i :: 0 <= i < |text| ==> !Starts2((text + "*/")[i..], '*', '/')
    case XmlComment(text) =>
      d.xml && forall i :: 0 <= i < |text| ==> !Starts3((text + "-->")[i..], '-', '-', '>')
    case TripleQuoted(q, text) =>
      d.python && (q == '"' || q == '\'') &&
      forall i :: 0 <= i < |text| ==> !Starts3((text + [q, q, q])[i..], q, q, q)
    case Quoted(q, items) =>
      && d.stripStrings && (q == '"' || q == '\'' || (d.cLike && q == '`'))
      && !(d.python && q != '`' && Starts3(Print(t) + rest, q, q, q))
      && forall i :: 0 <= i < |items| ==> ItemFits(q, items[i])
  }

  function PrintAll(ts: seq<Token>): string {
    if ts == [] then [] else Print(ts[0]) + PrintAll(ts[1..])
  }

  function ResidueAll(ts: seq<Token>): string {
    if ts == [] then [] else Residue(ts[0]) + ResidueAll(ts[1..])
  }

  ghost predicate AllFit(d: Dialect, ts: seq<Token>) {
    ts == [] || (Fits(d, ts[0], PrintAll(ts[1..])) && AllFit(d, ts[1..]))
  }

  /** The machine blanks this character (or keeps this break) and stays where it is. */
  ghost predicate Stays(f: Machine, st: State, s: string) {
    s != [] && f(st, s) == if IsNewline(s[0]) then Keep(st) else Move(1, true, st)
  }

  /** From `st` the machine blanks `a` and is then in state `st'` with `b` to read. */
  ghost predicate Takes(f: Machine, st: State, a: string, st': State, b: string) {
    Run(f, st, a + b) == BlankOut(a) + Run(f, st', b)
  }

  lemma TakesChain(f: Machine, st: State, a: string, st1: State, b: string, st2: State, c: string)
    requires Takes(f, st, a, st1, b + c) && Takes(f, st1, b, st2, c)
    ensures Takes(f, st, a + b, st2, c)
  {
    assert a + b + c == a + (b + c);
    assert BlankOut(a + b) == BlankOut(a) + BlankOut(b);
    Regroup(BlankOut(a), BlankOut(b), Run(f, st2, c));
  }

  lemma Regroup(x: string, y: string, z: string)
    ensures x + (y + z) == (x + y) + z
  {
  }

  lemma {:induction false} RegionRun(f: Machine, st: State, text: string, tail: string)
    requires forall i :: 0 <= i < |text| ==> Stays(f, st, text[i..] + tail)
    ensures Takes(f, st, text, st, tail)
  {
    if text == [] {
      assert text + tail == tail;
    } else {
      var h, t := text[..1], text[1..];
      forall i | 0 <= i < |t|
        ensures Stays(f, st, t[i..] + tail)
      {
        assert t[i..] == text[i + 1..];
      }
      RegionRun(f, st, t, tail);
      assert text[0..] + tail == h + (t + tail);
      StayTurn(f, st, h, t + tail);
      TakesChain(f, st, h, st, t, st, tail);
      assert h + t == text;
    }
  }

  lemma StayTurn(f: Machine, st: State, a: string, b: string)
    requires |a| == 1 && Stays(f, st, a + b)
    ensures Takes(f, st, a, st, b)
  {
    assert (a + b)[1..] == b;
    assert BlankOut(a) == Emit(f(st, a + b), a + b);
  }

  /** A blank turn that takes exactly the text `a`. */
  lemma BlankTurn(f: Machine, st: State, a: string, b: string)
    requires a != [] && f(st, a + b).blank && f(st, a + b).width == |a|
    requires forall i :: 0 <= i < |a| ==> !IsNewline(a[i])
    ensures Takes(f, st, a, f(st, a + b).next, b)
  {
    assert (a + b)[|a|..] == b;
    assert BlankOut(a) == Spaces(|a|);
  }

  /** A region whose text is known to be blanked: opener, text, closer. */
  lemma WrappedRun(f: Machine, opener: string, inside: State, text: string, closer: string, rest: string)
    requires opener != [] && forall i :: 0 <= i < |opener| ==> !IsNewline(opener[i])
    requires closer != [] && forall i :: 0 <= i < |closer| ==> !IsNewline(closer[i])
    requires f(START, opener + (text + (closer + rest))) == Move(|opener|, true, inside)
    requires Takes(f, inside, text, inside, closer + rest)
    requires f(inside, closer + rest) == Move(|closer|, true, START)
    ensures Takes(f, START, opener + (text + closer), START, rest)
  {
    BlankTurn(f, START, opener, text + (closer + rest));
    BlankTurn(f, inside, closer, rest);
    TakesChain(f, inside, text, inside, closer, START, rest);
    assert text + (closer + rest) == (text + closer) + rest;
    TakesChain(f, START, opener, inside, text + closer, START, rest);
  }

  /** A region with a fixed opener and closer, whose text holds no closer. */
  lemma DelimitedRun(f: Machine, opener: string, inside: State, text: string, closer: string, rest: string)
    requires opener != [] && forall i :: 0 <= i < |opener| ==> !IsNewline(opener[i])
    requires closer != [] && forall i :: 0 <= i < |closer| ==> !IsNewline(closer[i])
    requires f(START, opener + (text + (closer + rest))) == Move(|opener|, true, inside)
    requires forall i :: 0 <= i < |text| ==> Stays(f, inside, text[i..] + (closer + rest))
    requires f(inside, closer + rest) == Move(|closer|, true, START)
    ensures Takes(f, START, opener + (text + closer), START, rest)
  {
    RegionRun(f, inside, text, closer + rest);
    WrappedRun(f, opener, inside, text, closer, rest);
  }

  /** Looking for a closer in what remains of the text is looking in text and closer alone. */
  lemma TailView(text: string, i: nat, closer: string, rest: string)
    requires i < |text|
    ensures var here, there := text[i..] + (closer + rest), (text + closer)[i..];
            |there| <= |here| && here[..|there|] == there
  {
    assert (text + closer)[i..] == text[i..] + closer;
  }

  lemma BlockRun(d: Dialect, text: string, rest: string)
    requires Fits(d, BlockComment(text), rest)
    ensures Takes(Stripper(d), START, Print(BlockComment(text)), START, rest)
  {
    var f, inside := Stripper(d), State(Block, false);
    forall i | 0 <= i < |text|
      ensures Stays(f, inside, text[i..] + ("*/" + rest))
    {
      TailView(text, i, "*/", rest);
    }
    DelimitedRun(f, "/*", inside, text, "*/", rest);
  }

  lemma XmlRun(d: Dialect, text: string, rest: string)
    requires Fits(d, XmlComment(text), rest)
    ensures Takes(Stripper(d), START, Print(XmlComment(text)), START, rest)
  {
    var f, inside := Stripper(d), State(Xml, false);
    forall i | 0 <= i < |text|
      ensures Stays(f, inside, text[i..] + ("-->" + rest))
    {
      TailView(text, i, "-->", rest);
    }
    DelimitedRun(f, "<!--", inside, text, "-->", rest);
  }

  lemma TripleRun(d: Dialect, q: char, text: string, rest: string)
    requires Fits(d, TripleQuoted(q, text), rest)
    ensures Takes(Stripper(d), START, Print(TripleQuoted(q, text)), START, rest)
  {
    var f, inside, qqq := Stripper(d), State(Triple(q), false), [q, q, q];
    forall i | 0 <= i < |text|
      ensures Stays(f, inside, text[i..] + (qqq + rest))
    {
      TailView(text, i, qqq, rest);
    }
    DelimitedRun(f, qqq, inside, text, qqq, rest);
  }

  lemma LineRun(d: Dialect, opener: string, text: string, rest: string)
    requires Fits(d, LineComment(opener, text), rest)
    ensures Takes(Stripper(d), START, Print(LineComment(opener, text)), START, rest)
  {
    var f, inside := Stripper(d), State(Line, false);
    BlankTurn(f, START, opener, text + rest);
    RegionRun(f, inside, text, rest);
    LineEnds(f, rest);
    TakesChain(f, START, opener, inside, text, START, rest);
  }

  lemma LineEnds(f: Machine, rest: string)
    requires rest != [] ==> f(State(Line, false), rest) == f(START, rest)
    ensures Run(f, State(Line, false), rest) == Run(f, START, rest)
  {
  }

  lemma ItemRun(d: Dialect, q: char, item: Item, tail: string)
    requires IsQuote(q) && ItemFits(q, item)
    ensures Takes(Stripper(d), State(Str(q), false), PrintItem(item), State(Str(q), false), tail)
  {
    var f, inside := Stripper(d), State(Str(q), false);
    match item
    case Raw(c) =>
      StayTurn(f, inside, [c], tail);
    case Esc(c) =>
      BlankTurn(f, inside, ['\\'], [c] + tail);
      BlankTurn(f, State(Str(q), true), [c], tail);
      TakesChain(f, inside, ['\\'], State(Str(q), true), [c], inside, tail);
  }

  lemma {:induction false} ItemsRun(d: Dialect, q: char, items: seq<Item>, tail: string)
    requires IsQuote(q) && forall i :: 0 <= i < |items| ==> ItemFits(q, items[i])
    ensures Takes(Stripper(d), State(Str(q), false), PrintItems(items), State(Str(q), false), tail)
  {
    var f, inside := Stripper(d), State(Str(q), false);
    if items == [] {
      assert PrintItems(items) + tail == tail;
    } else {
      var rest := PrintItems(items[1..]);
      ItemsRun(d, q, items[1..], tail);
      ItemRun(d, q, items[0], rest + tail);
      TakesChain(f, inside, PrintItem(items[0]), inside, rest, inside, tail);
    }
  }

  lemma RegroupQuoted(q: string, text: string, rest: string)
    ensures (q + (text + q)) + rest == q + (text + (q + rest))
  {
  }

  lemma QuoteOpens(d: Dialect, q: char, items: seq<Item>, rest: string)
    requires Fits(d, Quoted(q, items), rest)
    ensures Next(d, START, [q] + (PrintItems(items) + ([q] + rest))) == Move(1, true, State(Str(q), false))
  {
    RegroupQuoted([q], PrintItems(items), rest);
  }

  lemma QuotedRun(d: Dialect, q: char, items: seq<Item>, rest: string)
    requires Fits(d, Quoted(q, items), rest)
    ensures Takes(Stripper(d), START, [q] + (PrintItems(items) + [q]), START, rest)
  {
    QuoteOpens(d, q, items, rest);
    ItemsRun(d, q, items, [q] + rest);
    WrappedRun(Stripper(d), [q], State(Str(q), false), PrintItems(items), [q], rest);
  }

  lemma CodeRun(d: Dialect, t: Token, rest: string)
    requires (t.Plain? || t.Break?) && Fits(d, t, rest)
    ensures Run(Stripper(d), START, Print(t) + rest) == Residue(t) + Run(Stripper(d), START, rest)
  {
    assert Stripper(d)(START, [t.c] + rest) == Keep(START);
    assert ([t.c] + rest)[1..] == rest;
  }

  lemma TokenRun(d: Dialect, t: Token, rest: string)
    requires Fits(d, t, rest)
    ensures Run(Stripper(d), START, Print(t) + rest) == Residue(t) + Run(Stripper(d), START, rest)
  {
    match t
    case Plain(_) => CodeRun(d, t, rest);
    case Break(_) => CodeRun(d, t, rest);
    case LineComment(opener, text) => LineRun(d, opener, text, rest);
    case BlockComment(text) => BlockRun(d, text, rest);
    case XmlComment(text) => XmlRun(d, text, rest);
    case TripleQuoted(q, text) => TripleRun(d, q, text, rest);
    case Quoted(q, items) => QuotedRun(d, q, items, rest);
  }

  /** Stripping a printed token sequence leaves its code, its line breaks, and blanks for the rest. */
  lemma {:induction false} StripsExactlyTheTokens(d: Dialect, ts: seq<Token>)
    requires AllFit(d, ts)
    ensures Strip(d, PrintAll(ts)) == ResidueAll(ts)
  {
    if ts != [] {
      TokenRun(d, ts[0], PrintAll(ts[1..]));
      StripsExactlyTheTokens(d, ts[1..]);
    }
  }

  // ---------------------------------------------------------------------------
  // What that means for each file extension
  // ---------------------------------------------------------------------------

  const SLASH_LANGUAGES := {"rs", "go", "js", "jsx", "ts", "tsx", "java", "kt", "cs", "c", "h", "cpp", "hpp",
                            "swift", "m", "mm", "scala", "php"}

  predicate BreakFree(s: string) { forall i :: 0 <= i < |s| ==> !IsNewline(s[i]) }

  /** A line comment ends with its line. */
  predicate LineDone(rest: string) { rest == [] || IsNewline(rest[0]) }

  lemma BlankOfBreakFree(s: string)
    requires BreakFree(s)
    ensures BlankOut(s) == Spaces(|s|)
  {
  }

  /** No comment or string of the dialect begins with this character. */
  predicate CodeChar(d: Dialect, c: char) {
    && (c == '/' ==> !d.cLike) && (c == '<' ==> !d.xml) && (c == '#' ==> !d.script)
    && (c == '"' || c == '\'' ==> !d.stripStrings && !d.python) && (c == '`' ==> !d.stripStrings || !d.cLike)
  }

  lemma KeepsOne(d: Dialect, c: char, rest: string)
    requires CodeChar(d, c)
    ensures Strip(d, [c] + rest) == [c] + Strip(d, rest)
  {
    assert ([c] + rest)[1..] == rest;
  }

  lemma {:induction false} KeepsCode(d: Dialect, s: string, rest: string)
    requires forall i :: 0 <= i < |s| ==> CodeChar(d, s[i])
    ensures Strip(d, s + rest) == s + Strip(d, rest)
  {
    if s == [] {
      assert s + rest == rest;
    } else {
      KeepsCode(d, s[1..], rest);
      KeepsOne(d, s[0], s[1..] + rest);
      assert s == [s[0]] + s[1..];
      Regroup([s[0]], s[1..], rest);
      Regroup([s[0]], s[1..], Strip(d, rest));
    }
  }

  lemma SlashesOrKept(d: Dialect, t: string, rest: string)
    requires BreakFree(t) && LineDone(rest)
    ensures Strip(d, "//" + t + rest) ==
            if d.cLike then Spaces(2 + |t|) + Strip(d, rest) else "//" + Strip(d, t + rest)
  {
    BlankOfBreakFree("//" + t);
    if d.cLike {
      TokenRun(d, LineComment("//", t), rest);
    } else {
      assert "//" + t + rest == "//" + (t + rest);
      KeepsCode(d, "//", t + rest);
    }
  }

  lemma HashOrKept(d: Dialect, t: string, rest: string)
    requires BreakFree(t) && LineDone(rest)
    ensures Strip(d, "#" + t + rest) ==
            if d.script then Spaces(1 + |t|) + Strip(d, rest) else "#" + Strip(d, t + rest)
  {
    BlankOfBreakFree("#" + t);
    if d.script {
      TokenRun(d, LineComment("#", t), rest);
    } else {
      assert "#" + t + rest == "#" + (t + rest);
      KeepsCode(d, "#", t + rest);
    }
  }

  /** The text holds no closer of a block comment, even with the closer's own characters after it. */
  predicate CloserFree(t: string, closer: string) {
    forall i :: 0 <= i < |t| ==> !(closer <= (t + closer)[i..])
  }

  lemma BlockOrKept(d: Dialect, t: string, rest: string)
    requires CloserFree(t, "*/")
    ensures Strip(d, "/*" + (t + "*/") + rest) ==
            if d.cLike then BlankOut("/*" + (t + "*/")) + Strip(d, rest) else "/*" + Strip(d, t + "*/" + rest)
  {
    if d.cLike {
      assert forall i :: 0 <= i < |t| ==> !Starts2((t + "*/")[i..], '*', '/');
      TokenRun(d, BlockComment(t), rest);
    } else {
      var after := t + "*/" + rest;
      assert "/*" + (t + "*/") + rest == "/*" + after;
      KeepsCode(d, "/*", after);
    }
  }

  lemma XmlOrKept(d: Dialect, t: string, rest: string)
    requires CloserFree(t, "-->")
    ensures Strip(d, "<!--" + (t + "-->") + rest) ==
            if d.xml then BlankOut("<!--" + (t + "-->")) + Strip(d, rest) else "<!--" + Strip(d, t + "-->" + rest)
  {
    if d.xml {
      assert forall i :: 0 <= i < |t| ==> !Starts3((t + "-->")[i..], '-', '-', '>');
      TokenRun(d, XmlComment(t), rest);
    } else {
      var after := t + "-->" + rest;
      assert "<!--" + (t + "-->") + rest == "<!--" + after;
      KeepsCode(d, "<!--", after);
    }
  }

  /** Neither the quote, nor a backslash, nor, but in backticks, a line break. */
  predicate Simple(q: char, t: string) {
    forall i :: 0 <= i < |t| ==> t[i] != q && t[i] != '\\' && (IsNewline(t[i]) ==> q == '`')
  }

  function RawItems(t: string): seq<Item> {
    if t == [] then [] else [Raw(t[0])] + RawItems(t[1..])
  }

  lemma {:induction false} PrintRaw(q: char, t: string)
    requires Simple(q, t)
    ensures PrintItems(RawItems(t)) == t
    ensures forall i :: 0 <= i < |RawItems(t)| ==> ItemFits(q, RawItems(t)[i])
  {
    if t != [] {
      PrintRaw(q, t[1..]);
      assert [t[0]] + t[1..] == t;
    }
  }

  /** A quoted value, not part of a run of quotes. */
  predicate QuoteStands(q: char, t: string, rest: string) {
    Simple(q, t) && (t == [] ==> rest == [] || rest[0] != q)
  }

  lemma QuotedOrKept(d: Dialect, q: char, t: string, rest: string)
    requires (q == '"' || q == '\'') && QuoteStands(q, t, rest) && (d.python ==> d.stripStrings)
    ensures Strip(d, [q] + (t + [q]) + rest) ==
            if d.stripStrings then Spaces(2 + |t|) + Strip(d, rest)
            else [q] + Strip(d, t + [q] + rest)
  {
    var printed := [q] + (t + [q]);
    BlankOfBreakFree(printed);
    if d.stripStrings {
      PrintRaw(q, t);
      assert t != [] ==> (printed + rest)[1] == t[0];
      assert t == [] && rest != [] ==> (printed + rest)[2] == rest[0];
      TokenRun(d, Quoted(q, RawItems(t)), rest);
    } else {
      var after := t + [q] + rest;
      assert printed + rest == [q] + after;
      KeepsOne(d, q, after);
    }
  }

  /** In both copies `//` starts a comment in exactly these languages; elsewhere the slashes are code. */
  lemma SlashComments(ext: string, t: string, rest: string)
    requires BreakFree(t) && LineDone(rest)
    ensures Strip(SourceDialect(ext), "//" + t + rest) ==
            if ext in SLASH_LANGUAGES then Spaces(2 + |t|) + Strip(SourceDialect(ext), rest)
            else "//" + Strip(SourceDialect(ext), t + rest)
    ensures Strip(SideChannelDialect(ext), "//" + t + rest) ==
            if ext in SLASH_LANGUAGES then Spaces(2 + |t|) + Strip(SideChannelDialect(ext), rest)
            else "//" + Strip(SideChannelDialect(ext), t + rest)
  {
    SlashesOrKept(SourceDialect(ext), t, rest);
    SlashesOrKept(SideChannelDialect(ext), t, rest);
  }

  /** And so does a block comment, over as many lines as it takes. */
  lemma BlockComments(ext: string, t: string, rest: string)
    requires CloserFree(t, "*/")
    ensures Strip(SourceDialect(ext), "/*" + (t + "*/") + rest) ==
            if ext in SLASH_LANGUAGES then BlankOut("/*" + (t + "*/")) + Strip(SourceDialect(ext), rest)
            else "/*" + Strip(SourceDialect(ext), t + "*/" + rest)
    ensures Strip(SideChannelDialect(ext), "/*" + (t + "*/") + rest) ==
            if ext in SLASH_LANGUAGES then BlankOut("/*" + (t + "*/")) + Strip(SideChannelDialect(ext), rest)
            else "/*" + Strip(SideChannelDialect(ext), t + "*/" + rest)
  {
    BlockOrKept(SourceDialect(ext), t, rest);
    BlockOrKept(SideChannelDialect(ext), t, rest);
  }

  /** `#` starts a comment in three scripting languages, and for the first copy in five configuration formats. */
  lemma HashComments(ext: string, t: string, rest: string)
    requires BreakFree(t) && LineDone(rest)
    ensures Strip(SourceDialect(ext), "#" + t + rest) ==
            if ext in {"py", "rb", "sh", "yaml", "yml", "toml", "conf", "cnf"}
            then Spaces(1 + |t|) + Strip(SourceDialect(ext), rest) else "#" + Strip(SourceDialect(ext), t + rest)
    ensures Strip(SideChannelDialect(ext), "#" + t + rest) ==
            if ext in {"py", "rb", "sh"} then Spaces(1 + |t|) + Strip(SideChannelDialect(ext), rest)
            else "#" + Strip(SideChannelDialect(ext), t + rest)
  {
    HashOrKept(SourceDialect(ext), t, rest);
    HashOrKept(SideChannelDialect(ext), t, rest);
  }

  lemma XmlComments(ext: string, t: string, rest: string)
    requires CloserFree(t, "-->")
    ensures Strip(SourceDialect(ext), "<!--" + (t + "-->") + rest) ==
            if ext == "xml" then BlankOut("<!--" + (t + "-->")) + Strip(SourceDialect(ext), rest)
            else "<!--" + Strip(SourceDialect(ext), t + "-->" + rest)
    ensures Strip(SideChannelDialect(ext), "<!--" + (t + "-->") + rest) ==
            if ext == "xml" then BlankOut("<!--" + (t + "-->")) + Strip(SideChannelDialect(ext), rest)
            else "<!--" + Strip(SideChannelDialect(ext), t + "-->" + rest)
  {
    XmlOrKept(SourceDialect(ext), t, rest);
    XmlOrKept(SideChannelDialect(ext), t, rest);
  }

  /** In Python files a triple-quoted text goes, over as many lines as it takes. */
  lemma TripleQuotes(q: char, t: string, rest: string)
    requires (q == '"' || q == '\'') && CloserFree(t, [q, q, q])
    ensures var printed := [q, q, q] + (t + [q, q, q]);
      && Strip(SourceDialect("py"), printed + rest) == BlankOut(printed) + Strip(SourceDialect("py"), rest)
      && Strip(SideChannelDialect("py"), printed + rest) == BlankOut(printed) + Strip(SideChannelDialect("py"), rest)
  {
    assert forall i :: 0 <= i < |t| ==> !Starts3((t + [q, q, q])[i..], q, q, q);
    TokenRun(SourceDialect("py"), TripleQuoted(q, t), rest);
    TokenRun(SideChannelDialect("py"), TripleQuoted(q, t), rest);
  }

  /** A quoted value stays, for the first copy only, in the six configuration formats. */
  lemma QuotedValues(ext: string, q: char, t: string, rest: string)
    requires (q == '"' || q == '\'') && QuoteStands(q, t, rest)
    ensures Strip(SourceDialect(ext), [q] + (t + [q]) + rest) ==
            if ext in {"yaml", "yml", "toml", "conf", "cnf", "xml"} then [q] + Strip(SourceDialect(ext), t + [q] + rest)
            else Spaces(2 + |t|) + Strip(SourceDialect(ext), rest)
    ensures Strip(SideChannelDialect(ext), [q] + (t + [q]) + rest) ==
            Spaces(2 + |t|) + Strip(SideChannelDialect(ext), rest)
  {
    QuotedOrKept(SourceDialect(ext), q, t, rest);
    QuotedOrKept(SideChannelDialect(ext), q, t, rest);
  }

  /** A text in backticks goes, over as many lines as it takes, where `//` starts a comment; elsewhere it is code. */
  lemma BacktickQuotes(ext: string, t: string, rest: string)
    requires Simple('`', t)
    ensures Strip(SourceDialect(ext), "`" + (t + "`") + rest) ==
            if ext in SLASH_LANGUAGES then BlankOut("`" + (t + "`")) + Strip(SourceDialect(ext), rest)
            else "`" + Strip(SourceDialect(ext), t + "`" + rest)
    ensures Strip(SideChannelDialect(ext), "`" + (t + "`") + rest) ==
            if ext in SLASH_LANGUAGES then BlankOut("`" + (t + "`")) + Strip(SideChannelDialect(ext), rest)
            else "`" + Strip(SideChannelDialect(ext), t + "`" + rest)
  {
    SlashMeansStrings(ext);
    BacktickOrKept(SourceDialect(ext), t, rest);
    BacktickOrKept(SideChannelDialect(ext), t, rest);
  }

  lemma SlashMeansStrings(ext: string)
    ensures ext in SLASH_LANGUAGES ==> SourceDialect(ext).stripStrings && SideChannelDialect(ext).stripStrings
  {
  }

  lemma BacktickOrKept(d: Dialect, t: string, rest: string)
    requires Simple('`', t)
    requires d.cLike ==> d.stripStrings
    ensures Strip(d, "`" + (t + "`") + rest) ==
            if d.cLike then BlankOut("`" + (t + "`")) + Strip(d, rest) else "`" + Strip(d, t + "`" + rest)
  {
    if d.cLike {
      PrintRaw('`', t);
      TokenRun(d, Quoted('`', RawItems(t)), rest);
    } else {
      assert "`" + (t + "`") + rest == "`" + (t + "`" + rest);
      KeepsCode(d, "`", t + "`" + rest);
    }
  }
}
