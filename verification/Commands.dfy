/**
Migration commands and their canonical text, the text that is signed: twelve fields joined by line
breaks, with a multi-line patch in the tenth place.  The text identifies the command among commands
whose leading fields hold no line break; how far beyond that it goes is stated exactly.
*/
module Commands {

  type u32 = n: int | 0 <= n < 0x1_0000_0000

  type i64 = n: int | -0x8000_0000_0000_0000 <= n < 0x8000_0000_0000_0000

  datatype Command = Command(
    commandId: string, hostUuid: string, targetService: string, migrationProfile: string, targetKem: string,
    targetSignature: string, configPath: string, checklist: seq<string>, rollbackWindow: u32, patch: string,
    issuedAt: i64, dryRun: bool)

  // ---------------------------------------------------------------------------
  // Numbers and JSON string arrays
  // ---------------------------------------------------------------------------

  function DigitChar(d: nat): char
    requires d < 10
  {
    '0' + d as char
  }

  function DecNat(n: nat): string {
    if n < 10 then [DigitChar(n)] else DecNat(n / 10) + [DigitChar(n % 10)]
  }

  function Dec(n: int): string { if n < 0 then "-" + DecNat(-n) else DecNat(n) }

  function Bool(b: bool): string { if b then "true" else "false" }

  function HexChar(d: nat): char
    requires d < 16
  {
    if d < 10 then '0' + d as char else 'a' + (d - 10) as char
  }

  /** One character inside a JSON string (section 7 of RFC 8259), as the agent's encoder writes it. */
  function Escape(c: char): string {
    if c == '"' then "\\\"" else if c == '\\' then "\\\\"
    else if c == '\U{0008}' then "\\b" else if c == '\t' then "\\t" else if c == '\n' then "\\n"
    else if c == '\U{000C}' then "\\f" else if c == '\r' then "\\r"
    else if c < ' ' then "\\u00" + [HexChar(c as int / 16), HexChar(c as int % 16)]
    else [c]
  }

  function EscapeAll(s: string): string { if s == [] then [] else Escape(s[0]) + EscapeAll(s[1..]) }

  function Quote(s: string): string { "\"" + (EscapeAll(s) + "\"") }

  function MoreItems(xs: seq<string>): string {
    if xs == [] then "]" else "," + (Quote(xs[0]) + MoreItems(xs[1..]))
  }

  function Json(xs: seq<string>): string {
    "[" + if xs == [] then "]" else Quote(xs[0]) + MoreItems(xs[1..])
  }

  // ---------------------------------------------------------------------------
  // The canonical text
  // ---------------------------------------------------------------------------

  function JoinLines(xs: seq<string>): string
    requires xs != []
  {
    if |xs| == 1 then xs[0] else xs[0] + "\n" + JoinLines(xs[1..])
  }

  function Canonical(c: Command): string {
    JoinLines([c.commandId, c.hostUuid, c.targetService, c.migrationProfile, c.targetKem, c.targetSignature,
               c.configPath, Json(c.checklist), Dec(c.rollbackWindow), c.patch, Dec(c.issuedAt), Bool(c.dryRun)])
  }

  predicate LineFree(s: string) { '\n' !in s }

  function Leading(c: Command): seq<string> {
    [c.commandId, c.hostUuid, c.targetService, c.migrationProfile, c.targetKem, c.targetSignature, c.configPath]
  }

  ghost predicate LeadingLineFree(c: Command) { forall f :: f in Leading(c) ==> LineFree(f) }

  /** Each text followed by a line break. */
  function EndLines(xs: seq<string>): string {
    if xs == [] then "" else xs[0] + ("\n" + EndLines(xs[1..]))
  }

  /** The text from the checklist on, with the checklist written as `j`, in the order a reader takes it apart. */
  function RestWith(c: Command, j: string): string {
    j + ("\n" + (Dec(c.rollbackWindow) + ("\n" + Last(c))))
  }

  function Rest(c: Command): string { RestWith(c, Json(c.checklist)) }

  /** The whole text, with the checklist written as `j`. */
  function TextWith(c: Command, j: string): string { EndLines(Leading(c)) + RestWith(c, j) }

  function Last(c: Command): string { c.patch + "\n" + Dec(c.issuedAt) + "\n" + Bool(c.dryRun) }

  lemma {:induction false} JoinSplits(xs: seq<string>, ys: seq<string>)
    requires ys != []
    ensures JoinLines(xs + ys) == EndLines(xs) + JoinLines(ys)
  {
    if xs == [] {
      assert xs + ys == ys;
    } else {
      JoinSplits(xs[1..], ys);
      assert (xs + ys)[1..] == xs[1..] + ys;
      RegroupLine(xs[0], EndLines(xs[1..]), JoinLines(ys));
    }
  }

  lemma RegroupLine(x: string, e: string, j: string)
    ensures x + "\n" + (e + j) == (x + ("\n" + e)) + j
  {
  }

  lemma TextParts(c: Command, j: string)
    ensures TextWith(c, j) ==
            JoinLines([c.commandId, c.hostUuid, c.targetService, c.migrationProfile, c.targetKem, c.targetSignature,
                       c.configPath, j, Dec(c.rollbackWindow), c.patch, Dec(c.issuedAt), Bool(c.dryRun)])
  {
    var d, p, i, b := Dec(c.rollbackWindow), c.patch, Dec(c.issuedAt), Bool(c.dryRun);
    assert Leading(c) + [j, d, p, i, b] == [c.commandId, c.hostUuid, c.targetService, c.migrationProfile, c.targetKem,
                                            c.targetSignature, c.configPath, j, d, p, i, b];
    JoinSplits(Leading(c), [j, d, p, i, b]);
    JoinFive(j, d, p, i, b);
  }

  lemma CanonicalParts(c: Command)
    ensures Canonical(c) == TextWith(c, Json(c.checklist)) == EndLines(Leading(c)) + Rest(c)
  {
    TextParts(c, Json(c.checklist));
  }

  lemma JoinFive(j: string, d: string, p: string, i: string, b: string)
    ensures JoinLines([j, d, p, i, b]) == j + ("\n" + (d + ("\n" + (p + "\n" + i + "\n" + b))))
  {
    assert [j, d, p, i, b][1..] == [d, p, i, b] && [d, p, i, b][1..] == [p, i, b];
    assert [p, i, b][1..] == [i, b] && [i, b][1..] == [b];
    assert JoinLines([i, b]) == i + "\n" + b;
    assert JoinLines([p, i, b]) == p + "\n" + (i + "\n" + b);
  }

  // ---------------------------------------------------------------------------
  // Taking texts apart
  // ---------------------------------------------------------------------------

  /** The first line break ends the same text on both sides. */
  lemma CutLine(a: string, u: string, b: string, v: string)
    requires LineFree(a) && LineFree(b) && a + ("\n" + u) == b + ("\n" + v)
    ensures a == b && u == v
  {
    var s, t := a + ("\n" + u), b + ("\n" + v);
    assert s[|a|] == '\n' && t[|b|] == '\n';
    assert forall i :: 0 <= i < |a| ==> s[i] == a[i];
    assert forall i :: 0 <= i < |b| ==> t[i] == b[i];
    assert a == s[..|a|] && b == t[..|b|];
    assert u == s[|a| + 1..] && v == t[|b| + 1..];
  }

  /** The last line break does too. */
  lemma CutLast(u: string, a: string, v: string, b: string)
    requires LineFree(a) && LineFree(b) && u + "\n" + a == v + "\n" + b
    ensures u == v && a == b
  {
    var s, t := u + "\n" + a, v + "\n" + b;
    assert s[|u|] == '\n' && t[|v|] == '\n';
    assert forall i :: |u| < i < |s| ==> s[i] == a[i - |u| - 1];
    assert forall i :: |v| < i < |t| ==> t[i] == b[i - |v| - 1];
    assert u == s[..|u|] && v == t[..|v|];
    assert a == s[|u| + 1..] && b == t[|v| + 1..];
  }

  lemma SamePrefix(p: string, x: string, y: string)
    requires p + x == p + y
    ensures x == y
  {
    assert x == (p + x)[|p|..] && y == (p + y)[|p|..];
  }

  lemma {:induction false} CutLines(xs: seq<string>, u: string, ys: seq<string>, v: string)
    requires |xs| == |ys| && (forall x :: x in xs ==> LineFree(x)) && (forall y :: y in ys ==> LineFree(y))
    requires EndLines(xs) + u == EndLines(ys) + v
    ensures xs == ys && u == v
    decreases |xs|
  {
    if xs == [] {
      assert EndLines(xs) + u == u && EndLines(ys) + v == v;
    } else {
      var x, y := EndLines(xs[1..]) + u, EndLines(ys[1..]) + v;
      assert EndLines(xs) + u == xs[0] + ("\n" + x);
      assert EndLines(ys) + v == ys[0] + ("\n" + y);
      CutLine(xs[0], x, ys[0], y);
      CutLines(xs[1..], u, ys[1..], v);
      assert xs == [xs[0]] + xs[1..] && ys == [ys[0]] + ys[1..];
    }
  }

  // ---------------------------------------------------------------------------
  // Numbers and arrays are line-free and can be read back
  // ---------------------------------------------------------------------------

  predicate IsDigit(c: char) { '0' <= c <= '9' }

  lemma {:induction false} DecNatDigits(n: nat)
    ensures DecNat(n) != [] && forall i :: 0 <= i < |DecNat(n)| ==> IsDigit(DecNat(n)[i])
  {
    if n >= 10 {
      DecNatDigits(n / 10);
    }
  }

  lemma DecLineFree(n: int)
    ensures LineFree(Dec(n)) && Dec(n) != [] && (n >= 0 ==> IsDigit(Dec(n)[0]))
  {
    DecNatDigits(if n < 0 then -n else n);
  }

  lemma {:induction false} DecNatInjective(m: nat, n: nat)
    requires DecNat(m) == DecNat(n)
    ensures m == n
  {
    var s, t := DecNat(m), DecNat(n);
    DecNatDigits(m / 10);
    DecNatDigits(n / 10);
    assert s[|s| - 1] == DigitChar(m % 10) && t[|t| - 1] == DigitChar(n % 10);
    assert (m < 10 <==> |s| == 1) && (n < 10 <==> |t| == 1);
    if m >= 10 {
      assert s[..|s| - 1] == DecNat(m / 10) && t[..|t| - 1] == DecNat(n / 10);
      DecNatInjective(m / 10, n / 10);
    }
  }

  lemma DecInjective(m: int, n: int)
    requires Dec(m) == Dec(n)
    ensures m == n
  {
    DecNatDigits(if m < 0 then -m else m);
    DecNatDigits(if n < 0 then -n else n);
    assert (m < 0) == (Dec(m)[0] == '-') && (n < 0) == (Dec(n)[0] == '-');
    if m < 0 {
      SamePrefix("-", DecNat(-m), DecNat(-n));
      DecNatInjective(-m, -n);
    } else {
      DecNatInjective(m, n);
    }
  }

  lemma EscapeLineFree(c: char)
    ensures LineFree(Escape(c)) && Escape(c) != [] && Escape(c)[0] != '"'
  {
  }

  lemma {:induction false} EscapeAllLineFree(s: string)
    ensures LineFree(EscapeAll(s))
  {
    if s != [] {
      EscapeLineFree(s[0]);
      EscapeAllLineFree(s[1..]);
    }
  }

  lemma {:induction false} MoreItemsLineFree(xs: seq<string>)
    ensures LineFree(MoreItems(xs))
  {
    if xs != [] {
      EscapeAllLineFree(xs[0]);
      MoreItemsLineFree(xs[1..]);
    }
  }

  lemma JsonLineFree(xs: seq<string>)
    ensures LineFree(Json(xs)) && Json(xs)[0] == '['
  {
    if xs != [] {
      EscapeAllLineFree(xs[0]);
      MoreItemsLineFree(xs[1..]);
    }
  }

  /** The escapes form a prefix code. */
  lemma EscapePrefixFree(a: char, u: string, b: char, v: string)
    requires Escape(a) + u == Escape(b) + v
    ensures a == b && u == v
  {
    var s, t := Escape(a) + u, Escape(b) + v;
    assert s[0] == Escape(a)[0] && t[0] == Escape(b)[0];
    if s[0] == '\\' {
      assert s[1] == Escape(a)[1] && t[1] == Escape(b)[1];
      if s[1] == 'u' {
        assert s[4] == Escape(a)[4] && s[5] == Escape(a)[5] && t[4] == Escape(b)[4] && t[5] == Escape(b)[5];
        HexInjective(a as int / 16, b as int / 16);
        HexInjective(a as int % 16, b as int % 16);
      }
    }
    assert a == b;
    SamePrefix(Escape(a), u, v);
  }

  lemma HexInjective(x: nat, y: nat)
    requires x < 16 && y < 16 && HexChar(x) == HexChar(y)
    ensures x == y
  {
  }

  lemma BodyStarts(s: string, u: string)
    ensures var x := EscapeAll(s) + ("\"" + u);
            if s == [] then x == "\"" + u && x[0] == '"'
            else x == Escape(s[0]) + (EscapeAll(s[1..]) + ("\"" + u)) && x[0] != '"'
  {
    if s != [] {
      EscapeLineFree(s[0]);
      Assoc(Escape(s[0]), EscapeAll(s[1..]), "\"" + u);
    }
  }

  /** A quoted string ends where its closing quote is, so what follows it is determined too. */
  lemma {:induction false} BodyPrefixFree(s: string, u: string, t: string, v: string)
    requires EscapeAll(s) + ("\"" + u) == EscapeAll(t) + ("\"" + v)
    ensures s == t && u == v
    decreases |s|
  {
    var x, y := EscapeAll(s) + ("\"" + u), EscapeAll(t) + ("\"" + v);
    BodyStarts(s, u);
    BodyStarts(t, v);
    if s == [] {
      SamePrefix("\"", u, v);
    } else {
      EscapePrefixFree(s[0], EscapeAll(s[1..]) + ("\"" + u), t[0], EscapeAll(t[1..]) + ("\"" + v));
      BodyPrefixFree(s[1..], u, t[1..], v);
      assert s == [s[0]] + s[1..] && t == [t[0]] + t[1..];
    }
  }

  lemma QuotePrefixFree(s: string, u: string, t: string, v: string)
    requires Quote(s) + u == Quote(t) + v
    ensures s == t && u == v
  {
    assert Quote(s) + u == "\"" + (EscapeAll(s) + ("\"" + u));
    assert Quote(t) + v == "\"" + (EscapeAll(t) + ("\"" + v));
    SamePrefix("\"", EscapeAll(s) + ("\"" + u), EscapeAll(t) + ("\"" + v));
    BodyPrefixFree(s, u, t, v);
  }

  lemma FirstItem(xs: seq<string>, u: string)
    requires xs != []
    ensures MoreItems(xs) + u == "," + (Quote(xs[0]) + (MoreItems(xs[1..]) + u))
  {
  }

  lemma {:induction false} ItemsPrefixFree(xs: seq<string>, u: string, ys: seq<string>, v: string)
    requires MoreItems(xs) + u == MoreItems(ys) + v
    ensures xs == ys && u == v
    decreases |xs|
  {
    assert (MoreItems(xs) + u)[0] == MoreItems(xs)[0] && (MoreItems(ys) + v)[0] == MoreItems(ys)[0];
    if xs == [] || ys == [] {
      SamePrefix("]", u, v);
    } else {
      var x, y := MoreItems(xs[1..]) + u, MoreItems(ys[1..]) + v;
      FirstItem(xs, u);
      FirstItem(ys, v);
      SamePrefix(",", Quote(xs[0]) + x, Quote(ys[0]) + y);
      QuotePrefixFree(xs[0], x, ys[0], y);
      ItemsPrefixFree(xs[1..], u, ys[1..], v);
      assert xs == [xs[0]] + xs[1..] && ys == [ys[0]] + ys[1..];
    }
  }

  lemma JsonInjective(xs: seq<string>, ys: seq<string>)
    requires Json(xs) == Json(ys)
    ensures xs == ys
  {
    SamePrefix("[", Json(xs)[1..], Json(ys)[1..]);
    if xs == [] || ys == [] {
      assert Json(xs)[1] == Json(ys)[1];
    } else {
      assert Json(xs)[1..] == Quote(xs[0]) + MoreItems(xs[1..]);
      assert Json(ys)[1..] == Quote(ys[0]) + MoreItems(ys[1..]);
      QuotePrefixFree(xs[0], MoreItems(xs[1..]), ys[0], MoreItems(ys[1..]));
      assert MoreItems(xs[1..]) + [] == MoreItems(ys[1..]) + [];
      ItemsPrefixFree(xs[1..], [], ys[1..], []);
      assert xs == [xs[0]] + xs[1..] && ys == [ys[0]] + ys[1..];
    }
  }

  // ---------------------------------------------------------------------------
  // What the texts mean
  // ---------------------------------------------------------------------------

  /** The value of a string of decimal digits. */
  function DecimalValue(s: string): int {
    if s == [] then 0 else DecimalValue(s[..|s| - 1]) * 10 + (s[|s| - 1] as int - '0' as int)
  }

  /** Numbers are written in decimal, negative ones after a minus sign. */
  lemma {:induction false} DecNatReads(n: nat)
    ensures DecimalValue(DecNat(n)) == n
    ensures n > 0 ==> DecNat(n)[0] != '0'
  {
    var s := DecNat(n);
    assert s[|s| - 1] == DigitChar(n % 10);
    if n >= 10 {
      DecNatReads(n / 10);
      DecNatDigits(n / 10);
      assert s[..|s| - 1] == DecNat(n / 10);
    } else {
      assert s[..|s| - 1] == [];
    }
  }

  lemma NumbersAndTruthValues(n: nat)
    ensures DecimalValue(Dec(n)) == n && (n > 0 ==> Dec(n)[0] != '0' && Dec(-(n as int)) == "-" + Dec(n))
    ensures Bool(true) == "true" && Bool(false) == "false"
  {
    DecNatReads(n);
  }

  /** Lists are JSON arrays of strings, in order. */
  lemma ListsAreArrays(x: string, y: string)
    ensures Json([]) == "[]" && Json([x]) == "[" + (Quote(x) + "]")
    ensures Json([x, y]) == "[" + (Quote(x) + ("," + (Quote(y) + "]")))
    ensures Quote(x)[0] == '"' && Quote(x)[1..] == EscapeAll(x) + "\""
  {
    assert [x][1..] == [];
    assert [x, y][1..] == [y];
    assert [y][1..] == [];
  }

  function HexValue(c: char): int {
    if '0' <= c <= '9' then c as int - '0' as int
    else if 'a' <= c <= 'f' then c as int - 'a' as int + 10
    else if 'A' <= c <= 'F' then c as int - 'A' as int + 10
    else 0x1_0000
  }

  /** One character of a JSON string, as section 7 of RFC 8259 has it read; how much text it takes; none at the end. */
  function ReadChar(s: string): (r: (char, nat))
    requires s != []
    ensures r.1 <= |s|
  {
    if s[0] == '"' then ('"', 0)
    else if s[0] != '\\' then (s[0], 1)
    else if |s| < 2 then ('\\', 0)
    else if s[1] == '"' || s[1] == '\\' || s[1] == '/' then (s[1], 2)
    else if s[1] == 'b' then ('\U{0008}', 2)
    else if s[1] == 'f' then ('\U{000C}', 2)
    else if s[1] == 'n' then ('\n', 2)
    else if s[1] == 'r' then ('\r', 2)
    else if s[1] == 't' then ('\t', 2)
    else if s[1] == 'u' && |s| >= 6 then
      var v := ((HexValue(s[2]) * 16 + HexValue(s[3])) * 16 + HexValue(s[4])) * 16 + HexValue(s[5]);
      if 0 <= v < 0xD800 || 0xE000 <= v < 0x1_0000 then (v as char, 6) else ('\\', 0)
    else ('\\', 0)
  }

  /** A JSON string up to its closing quote. */
  function ReadString(s: string): string
    decreases |s|
  {
    if s == [] || ReadChar(s).1 == 0 then [] else [ReadChar(s).0] + ReadString(s[ReadChar(s).1..])
  }

  lemma EscapeReads(c: char, u: string)
    ensures ReadChar(Escape(c) + u) == (c, |Escape(c)|)
  {
    var s := Escape(c) + u;
    assert forall i :: 0 <= i < |Escape(c)| ==> s[i] == Escape(c)[i];
    if |Escape(c)| == 6 {
      HexReads(c as int / 16);
      HexReads(c as int % 16);
    }
  }

  lemma HexReads(d: nat)
    requires d < 16
    ensures HexValue(HexChar(d)) == d
  {
  }

  /** The agent's escapes are JSON: a reader of the standard gets the text back. */
  lemma {:induction false} EscapesRead(s: string, u: string)
    ensures ReadString(EscapeAll(s) + ("\"" + u)) == s
  {
    BodyStarts(s, u);
    if s != [] {
      var rest := EscapeAll(s[1..]) + ("\"" + u);
      EscapeReads(s[0], rest);
      EscapesRead(s[1..], u);
      assert (Escape(s[0]) + rest)[|Escape(s[0])|..] == rest;
      assert Escape(s[0]) != [];
    }
  }

  // ---------------------------------------------------------------------------
  // Injectivity
  // ---------------------------------------------------------------------------

  lemma LastInjective(c: Command, d: Command)
    requires Last(c) == Last(d)
    ensures c.patch == d.patch && c.issuedAt == d.issuedAt && c.dryRun == d.dryRun
  {
    DecLineFree(c.issuedAt);
    DecLineFree(d.issuedAt);
    CutLast(c.patch + "\n" + Dec(c.issuedAt), Bool(c.dryRun), d.patch + "\n" + Dec(d.issuedAt), Bool(d.dryRun));
    CutLast(c.patch, Dec(c.issuedAt), d.patch, Dec(d.issuedAt));
    DecInjective(c.issuedAt, d.issuedAt);
  }

  lemma RestInjective(c: Command, j: string, d: Command)
    requires LineFree(j) && RestWith(c, j) == Rest(d)
    ensures j == Json(d.checklist) && c.rollbackWindow == d.rollbackWindow
    ensures c.patch == d.patch && c.issuedAt == d.issuedAt && c.dryRun == d.dryRun
  {
    JsonLineFree(d.checklist);
    DecLineFree(c.rollbackWindow);
    DecLineFree(d.rollbackWindow);
    var x, y := Dec(c.rollbackWindow) + ("\n" + Last(c)), Dec(d.rollbackWindow) + ("\n" + Last(d));
    CutLine(j, x, Json(d.checklist), y);
    CutLine(Dec(c.rollbackWindow), Last(c), Dec(d.rollbackWindow), Last(d));
    DecInjective(c.rollbackWindow, d.rollbackWindow);
    LastInjective(c, d);
  }

  /** A text with line-free leading fields gives every field back, the checklist as it is written. */
  lemma TextInjective(c: Command, j: string, d: Command)
    requires LeadingLineFree(c) && LeadingLineFree(d) && LineFree(j) && TextWith(c, j) == Canonical(d)
    ensures j == Json(d.checklist) && d == c.(checklist := d.checklist)
  {
    CanonicalParts(d);
    CutLines(Leading(c), RestWith(c, j), Leading(d), Rest(d));
    RestInjective(c, j, d);
    SameLeading(c, d);
  }

  /** Among commands whose leading fields are line-free, the canonical text identifies the command. */
  lemma CanonicalInjective(c: Command, d: Command)
    requires LeadingLineFree(c) && LeadingLineFree(d) && Canonical(c) == Canonical(d)
    ensures c == d
  {
    CanonicalParts(c);
    JsonLineFree(c.checklist);
    TextInjective(c, Json(c.checklist), d);
    JsonInjective(c.checklist, d.checklist);
  }

  lemma SameLeading(c: Command, d: Command)
    requires Leading(c) == Leading(d)
    ensures c.commandId == d.commandId && c.hostUuid == d.hostUuid && c.targetService == d.targetService
    ensures c.migrationProfile == d.migrationProfile && c.targetKem == d.targetKem
    ensures c.targetSignature == d.targetSignature && c.configPath == d.configPath
  {
    var x, y := Leading(c), Leading(d);
    assert x[0] == y[0] && x[1] == y[1] && x[2] == y[2] && x[3] == y[3] && x[4] == y[4] && x[5] == y[5] && x[6] == y[6];
  }

  // ---------------------------------------------------------------------------
  // Beyond line-free fields: exactly which commands share their text with another
  // ---------------------------------------------------------------------------

  function Breaks(s: string): nat { if s == [] then 0 else (if s[0] == '\n' then 1 else 0) + Breaks(s[1..]) }

  lemma {:induction false} BreaksConcat(a: string, b: string)
    ensures Breaks(a + b) == Breaks(a) + Breaks(b)
  {
    if a == [] {
      assert a + b == b;
    } else {
      BreaksConcat(a[1..], b);
      assert (a + b)[1..] == a[1..] + b;
    }
  }

  lemma {:induction false} BreaksPositive(s: string, i: nat)
    requires i < |s| && s[i] == '\n'
    ensures Breaks(s) > 0
  {
    if i > 0 {
      BreaksPositive(s[1..], i - 1);
    }
  }

  lemma {:induction false} NoBreaks(s: string)
    requires LineFree(s)
    ensures Breaks(s) == 0
  {
    if s != [] {
      NoBreaks(s[1..]);
    }
  }

  lemma {:induction false} BreaksOfLines(xs: seq<string>)
    ensures Breaks(EndLines(xs)) >= |xs|
    ensures (forall x :: x in xs ==> LineFree(x)) ==> Breaks(EndLines(xs)) == |xs|
    ensures (exists x :: x in xs && !LineFree(x)) ==> Breaks(EndLines(xs)) > |xs|
    ensures xs != [] ==> EndsLine(EndLines(xs))
  {
    if xs != [] {
      BreaksOfLines(xs[1..]);
      BreaksConcat(xs[0], "\n" + EndLines(xs[1..]));
      assert ("\n" + EndLines(xs[1..]))[1..] == EndLines(xs[1..]);
      if LineFree(xs[0]) {
        NoBreaks(xs[0]);
      } else {
        var i :| 0 <= i < |xs[0]| && xs[0][i] == '\n';
        BreaksPositive(xs[0], i);
      }
    }
  }

  predicate EndsLine(s: string) { s != [] && s[|s| - 1] == '\n' }

  lemma LongerHasMore(a: string, b: string)
    requires |a| < |b| && b[..|a|] == a && EndsLine(b)
    ensures Breaks(a) < Breaks(b)
  {
    var z := b[|a|..];
    assert b == a + z;
    BreaksConcat(a, z);
    assert z[|z| - 1] == '\n';
    BreaksPositive(z, |z| - 1);
  }

  /** Of two line-ended prefixes of one text, the one with no fewer line breaks holds the other. */
  lemma LinePrefix(a: string, x: string, b: string, y: string)
    requires a + x == b + y && EndsLine(b) && Breaks(a) >= Breaks(b)
    ensures |b| <= |a| && a[..|b|] == b
  {
    var t := a + x;
    assert forall i :: 0 <= i < |a| ==> t[i] == a[i];
    assert t == b + y && forall i :: 0 <= i < |b| ==> t[i] == b[i];
    if |a| < |b| {
      LongerHasMore(a, b);
    }
  }

  /** The patch holds, at the start of a line, a JSON array line and then a number line, both complete. */
  ghost predicate Ambiguous(patch: string) {
    exists pre: string, xs: seq<string>, n: u32, rest: string :: SplitsAs(patch, pre, xs, n, rest)
  }

  ghost predicate SplitsAs(patch: string, pre: string, xs: seq<string>, n: u32, rest: string) {
    (pre == [] || EndsLine(pre)) && patch == pre + Json(xs) + "\n" + Dec(n) + "\n" + rest
  }

  /** The command that reads the same text one array further down. */
  function Shifted(c: Command, j: string, pre: string, xs: seq<string>, n: u32, rest: string): Command {
    Command(c.commandId + "\n" + c.hostUuid + "\n" + c.targetService, c.migrationProfile, c.targetKem,
            c.targetSignature, c.configPath, j,
            Dec(c.rollbackWindow) + (if pre == [] then "" else "\n" + pre[..|pre| - 1]),
            xs, n, rest, c.issuedAt, c.dryRun)
  }

  lemma RegroupFirst(x: string, e: string, j: string)
    ensures x + ("\n" + (e + j)) == (x + ("\n" + e)) + j
  {
  }

  lemma {:induction false} EndLinesConcat(xs: seq<string>, ys: seq<string>)
    ensures EndLines(xs + ys) == EndLines(xs) + EndLines(ys)
  {
    if xs == [] {
      assert xs + ys == ys;
    } else {
      EndLinesConcat(xs[1..], ys);
      assert (xs + ys)[1..] == xs[1..] + ys;
      RegroupFirst(xs[0], EndLines(xs[1..]), EndLines(ys));
    }
  }

  lemma EndOne(x: string)
    ensures EndLines([x]) == x + "\n"
  {
    assert [x][1..] == [];
  }

  lemma EndThree(x: string, y: string, z: string)
    ensures EndLines([x, y, z]) == EndLines([x + "\n" + y + "\n" + z])
  {
    EndOne(x);
    EndOne(y);
    EndOne(z);
    EndOne(x + "\n" + y + "\n" + z);
    EndLinesConcat([x], [y, z]);
    EndLinesConcat([y], [z]);
    assert [x] + [y, z] == [x, y, z] && [y] + [z] == [y, z];
  }

  lemma ShiftedLead(c: Command, j: string, pre: string, xs: seq<string>, n: u32, rest: string)
    requires pre == [] || EndsLine(pre)
    ensures EndLines(Leading(Shifted(c, j, pre, xs, n, rest))) ==
            EndLines(Leading(c)) + (j + "\n" + Dec(c.rollbackWindow) + "\n" + pre)
  {
    var d := Shifted(c, j, pre, xs, n, rest);
    var first := [c.commandId, c.hostUuid, c.targetService];
    var middle := [c.migrationProfile, c.targetKem, c.targetSignature, c.configPath];
    var r := d.configPath;
    assert Leading(c) == first + middle;
    assert Leading(d) == [d.commandId] + (middle + ([j] + [r]));
    EndLinesConcat(first, middle);
    EndLinesConcat([d.commandId], middle + ([j] + [r]));
    EndLinesConcat(middle, [j] + [r]);
    EndLinesConcat([j], [r]);
    EndThree(c.commandId, c.hostUuid, c.targetService);
    EndOne(j);
    EndOne(r);
    ShiftedTail(EndLines(first), EndLines(middle), j, Dec(c.rollbackWindow), pre);
  }

  lemma ShiftedTail(x: string, y: string, j: string, n: string, pre: string)
    requires pre == [] || EndsLine(pre)
    ensures var r := n + (if pre == [] then "" else "\n" + pre[..|pre| - 1]);
            x + (y + ((j + "\n") + (r + "\n"))) == (x + y) + (j + "\n" + n + "\n" + pre)
  {
    var r := n + (if pre == [] then "" else "\n" + pre[..|pre| - 1]);
    assert r + "\n" == n + "\n" + pre;
    assert j + "\n" + n + "\n" + pre == (j + "\n") + (n + "\n" + pre);
  }

  lemma RegroupRest(j: string, r: string, pre: string, j2: string, n2: string, rest: string, tail: string)
    ensures j + ("\n" + (r + ("\n" + (pre + j2 + "\n" + n2 + "\n" + rest + tail))))
         == (j + "\n" + r + "\n" + pre) + (j2 + ("\n" + (n2 + ("\n" + (rest + tail)))))
  {
  }

  lemma ShiftedRest(c: Command, j: string, pre: string, xs: seq<string>, n: u32, rest: string)
    requires SplitsAs(c.patch, pre, xs, n, rest)
    ensures RestWith(c, j) ==
            (j + "\n" + Dec(c.rollbackWindow) + "\n" + pre) + Rest(Shifted(c, j, pre, xs, n, rest))
  {
    var tail := "\n" + Dec(c.issuedAt) + "\n" + Bool(c.dryRun);
    LastAs(c, tail);
    LastAs(Shifted(c, j, pre, xs, n, rest), tail);
    RegroupRest(j, Dec(c.rollbackWindow), pre, Json(xs), Dec(n), rest, tail);
  }

  lemma LastAs(c: Command, tail: string)
    requires tail == "\n" + Dec(c.issuedAt) + "\n" + Bool(c.dryRun)
    ensures Last(c) == c.patch + tail
  {
  }

  lemma Assoc(x: string, y: string, z: string)
    ensures x + (y + z) == (x + y) + z
  {
  }

  lemma ShiftedCollides(c: Command, j: string, pre: string, xs: seq<string>, n: u32, rest: string)
    requires SplitsAs(c.patch, pre, xs, n, rest)
    ensures Shifted(c, j, pre, xs, n, rest) != c && Canonical(Shifted(c, j, pre, xs, n, rest)) == TextWith(c, j)
  {
    var d := Shifted(c, j, pre, xs, n, rest);
    CanonicalParts(d);
    ShiftedLead(c, j, pre, xs, n, rest);
    ShiftedRest(c, j, pre, xs, n, rest);
    var mid := j + "\n" + Dec(c.rollbackWindow) + "\n" + pre;
    Assoc(EndLines(Leading(c)), mid, Rest(d));
    assert |d.commandId| > |c.commandId|;
  }

  function EightLines(c: Command, j: string): string { EndLines(Leading(c)) + (j + "\n") }

  function NineLines(c: Command, j: string): string { EightLines(c, j) + (Dec(c.rollbackWindow) + "\n") }

  lemma RegroupNine(l: string, j: string, r: string, p: string)
    ensures l + (j + ("\n" + (r + ("\n" + p)))) == (l + (j + "\n")) + (r + ("\n" + p))
    ensures (l + (j + "\n")) + (r + ("\n" + p)) == ((l + (j + "\n")) + (r + "\n")) + p
  {
  }

  lemma TextLines(c: Command, j: string)
    ensures TextWith(c, j) == EightLines(c, j) + (Dec(c.rollbackWindow) + ("\n" + Last(c)))
    ensures TextWith(c, j) == NineLines(c, j) + Last(c)
  {
    RegroupNine(EndLines(Leading(c)), j, Dec(c.rollbackWindow), Last(c));
  }

  lemma CountLines(c: Command, j: string)
    requires LeadingLineFree(c) && LineFree(j)
    ensures Breaks(EightLines(c, j)) == 8 && EndsLine(EightLines(c, j))
    ensures Breaks(NineLines(c, j)) == 9 && EndsLine(NineLines(c, j))
  {
    var lead, r := EndLines(Leading(c)), Dec(c.rollbackWindow);
    BreaksOfLines(Leading(c));
    DecLineFree(c.rollbackWindow);
    NoBreaks(j);
    NoBreaks(r);
    BreaksConcat(j, "\n");
    BreaksConcat(r, "\n");
    BreaksConcat(lead, j + "\n");
    BreaksConcat(EightLines(c, j), r + "\n");
  }

  /** Two line-ended prefixes of one text with the same number of line breaks are the same. */
  lemma SameLines(a: string, x: string, b: string, y: string)
    requires a + x == b + y && EndsLine(a) && EndsLine(b) && Breaks(a) == Breaks(b)
    ensures a == b && x == y
  {
    LinePrefix(a, x, b, y);
    LinePrefix(b, y, a, x);
    SamePrefix(a, x, y);
  }

  /** The colliding command's leading fields hold more than eight lines: the ninth is no array. */
  lemma LeadPassesEight(c: Command, j: string, d: Command)
    requires LeadingLineFree(c) && LineFree(j) && !LeadingLineFree(d) && Canonical(d) == TextWith(c, j)
    ensures Breaks(EndLines(Leading(d))) >= 9 && EndsLine(EndLines(Leading(d)))
  {
    CanonicalParts(d);
    CountLines(c, j);
    TextLines(c, j);
    BreaksOfLines(Leading(d));
    JsonLineFree(d.checklist);
    DecLineFree(c.rollbackWindow);
    var tail := Dec(c.rollbackWindow) + ("\n" + Last(c));
    assert tail[0] == Dec(c.rollbackWindow)[0] && Rest(d)[0] == Json(d.checklist)[0];
    if Breaks(EndLines(Leading(d))) == 8 {
      SameLines(EndLines(Leading(d)), Rest(d), EightLines(c, j), tail);
    }
  }

  lemma RestOfLines(a: string, b: string) returns (pre: string)
    requires |a| <= |b| && b[..|a|] == a && EndsLine(b)
    ensures b == a + pre && (pre == [] || EndsLine(pre))
  {
    pre := b[|a|..];
    assert pre != [] ==> pre[|pre| - 1] == b[|b| - 1];
  }

  /** A collision exposes a split of the patch. */
  lemma CollisionSplits(c: Command, j: string, d: Command) returns (pre: string)
    requires LeadingLineFree(c) && LineFree(j) && !LeadingLineFree(d) && Canonical(d) == TextWith(c, j)
    ensures SplitsAs(c.patch, pre, d.checklist, d.rollbackWindow, d.patch)
  {
    var dl, nine := EndLines(Leading(d)), NineLines(c, j);
    CanonicalParts(d);
    LeadPassesEight(c, j, d);
    CountLines(c, j);
    TextLines(c, j);
    LinePrefix(dl, Rest(d), nine, Last(c));
    pre := RestOfLines(nine, dl);
    TakeAway(nine, pre, Rest(d), Last(c));
    LastSplits(c, d, pre);
  }

  lemma CollisionIsAmbiguous(c: Command, j: string, d: Command)
    requires LeadingLineFree(c) && LineFree(j) && !LeadingLineFree(d) && Canonical(d) == TextWith(c, j)
    ensures Ambiguous(c.patch)
  {
    var pre := CollisionSplits(c, j, d);
    assert SplitsAs(c.patch, pre, d.checklist, d.rollbackWindow, d.patch);
  }

  lemma TakeAway(p: string, x: string, y: string, z: string)
    requires (p + x) + y == p + z
    ensures x + y == z
  {
    assert (p + x) + y == p + (x + y);
    SamePrefix(p, x + y, z);
  }

  lemma LastSplits(c: Command, d: Command, pre: string)
    requires pre + Rest(d) == Last(c)
    ensures c.patch == pre + Json(d.checklist) + "\n" + Dec(d.rollbackWindow) + "\n" + d.patch
  {
    var p := pre + Json(d.checklist) + "\n" + Dec(d.rollbackWindow) + "\n" + d.patch;
    RegroupLast(pre, Json(d.checklist), Dec(d.rollbackWindow), d.patch, Dec(d.issuedAt), Bool(d.dryRun));
    DecLineFree(c.issuedAt);
    DecLineFree(d.issuedAt);
    CutLast(c.patch + "\n" + Dec(c.issuedAt), Bool(c.dryRun), p + "\n" + Dec(d.issuedAt), Bool(d.dryRun));
    CutLast(c.patch, Dec(c.issuedAt), p, Dec(d.issuedAt));
  }

  lemma RegroupLast(pre: string, j: string, r: string, patch: string, i: string, b: string)
    ensures pre + (j + ("\n" + (r + ("\n" + (patch + "\n" + i + "\n" + b)))))
         == ((pre + j + "\n" + r + "\n" + patch) + "\n" + i) + "\n" + b
  {
  }

  lemma LineFreeSharesIff(c: Command)
    requires LeadingLineFree(c)
    ensures (exists d: Command :: d != c && Canonical(d) == Canonical(c)) <==> Ambiguous(c.patch)
  {
    CanonicalParts(c);
    JsonLineFree(c.checklist);
    if Ambiguous(c.patch) {
      var pre, xs, n, rest :| SplitsAs(c.patch, pre, xs, n, rest);
      ShiftedCollides(c, Json(c.checklist), pre, xs, n, rest);
    }
    if d: Command :| d != c && Canonical(d) == Canonical(c) {
      if LeadingLineFree(d) {
        CanonicalInjective(c, d);
      }
      CollisionIsAmbiguous(c, Json(c.checklist), d);
    }
  }

  /** The same command with other leading fields. */
  function WithLeading(c: Command, xs: seq<string>): (d: Command)
    requires |xs| == 7
    ensures Leading(d) == xs && Rest(d) == Rest(c)
  {
    c.(commandId := xs[0], hostUuid := xs[1], targetService := xs[2], migrationProfile := xs[3], targetKem := xs[4],
       targetSignature := xs[5], configPath := xs[6])
  }

  /** A line break inside a field may be read as the end of the field before it. */
  lemma MoveCut(pre: seq<string>, x: string, y: string, z: string, post: seq<string>)
    ensures EndLines(pre + [x + "\n" + y, z] + post) == EndLines(pre + [x, y + "\n" + z] + post)
  {
    EndLinesConcat(pre + [x + "\n" + y, z], post);
    EndLinesConcat(pre + [x, y + "\n" + z], post);
    EndLinesConcat(pre, [x + "\n" + y, z]);
    EndLinesConcat(pre, [x, y + "\n" + z]);
    EndLinesConcat([x + "\n" + y], [z]);
    EndLinesConcat([x], [y + "\n" + z]);
    assert [x + "\n" + y] + [z] == [x + "\n" + y, z] && [x] + [y + "\n" + z] == [x, y + "\n" + z];
    EndOne(x);
    EndOne(z);
    EndOne(x + "\n" + y);
    EndOne(y + "\n" + z);
    MoveBreak(x, y, z);
  }

  lemma MoveBreak(x: string, y: string, z: string)
    ensures (x + "\n" + y + "\n") + (z + "\n") == (x + "\n") + (y + "\n" + z + "\n")
  {
  }

  /** Leading fields with a line break somewhere read as other leading fields. */
  lemma BrokenFieldsCollide(xs: seq<string>, i: nat) returns (ys: seq<string>)
    requires |xs| == 7 && i < 7 && !LineFree(xs[i])
    ensures |ys| == 7 && ys != xs && EndLines(ys) == EndLines(xs)
  {
    var k :| 0 <= k < |xs[i]| && xs[i][k] == '\n';
    var x, y := xs[i][..k], xs[i][k + 1..];
    assert xs[i] == x + "\n" + y;
    if i < 6 {
      ys := xs[..i] + [x, y + "\n" + xs[i + 1]] + xs[i + 2..];
      assert xs == xs[..i] + [x + "\n" + y, xs[i + 1]] + xs[i + 2..];
      MoveCut(xs[..i], x, y, xs[i + 1], xs[i + 2..]);
      assert ys[i] == x;
    } else {
      ys := xs[..5] + [xs[5] + "\n" + x, y] + [];
      assert xs == xs[..5] + [xs[5], x + "\n" + y] + [];
      MoveCut(xs[..5], xs[5], x, y, []);
      assert ys[6] == y;
    }
  }

  lemma BrokenCollides(c: Command) returns (d: Command)
    requires !LeadingLineFree(c)
    ensures d != c && Canonical(d) == Canonical(c)
  {
    var i :| 0 <= i < |Leading(c)| && !LineFree(Leading(c)[i]);
    var ys := BrokenFieldsCollide(Leading(c), i);
    d := WithLeading(c, ys);
    CanonicalParts(c);
    CanonicalParts(d);
  }

  /**
   A command shares its canonical text with some other command exactly when one of its leading fields
   holds a line break or its patch is ambiguous.
   */
  lemma SharesTextIff(c: Command)
    ensures (exists d: Command :: d != c && Canonical(d) == Canonical(c)) <==> !LeadingLineFree(c) || Ambiguous(c.patch)
  {
    if LeadingLineFree(c) {
      LineFreeSharesIff(c);
    } else {
      var d := BrokenCollides(c);
    }
  }

  // ---------------------------------------------------------------------------
  // The server's encoder
  // ---------------------------------------------------------------------------

  /** The characters the server's JSON encoder escapes and the agent's does not. */
  const SERVER_ESCAPED := {'<', '>', '&', '\U{2028}', '\U{2029}'}

  function ServerEscape(c: char): string {
    if c == '<' then "\\u003c" else if c == '>' then "\\u003e" else if c == '&' then "\\u0026"
    else if c == '\U{2028}' then "\\u2028" else if c == '\U{2029}' then "\\u2029"
    else Escape(c)
  }

  function ServerEscapeAll(s: string): string { if s == [] then [] else ServerEscape(s[0]) + ServerEscapeAll(s[1..]) }

  function ServerQuote(s: string): string { "\"" + (ServerEscapeAll(s) + "\"") }

  function ServerMoreItems(xs: seq<string>): string {
    if xs == [] then "]" else "," + (ServerQuote(xs[0]) + ServerMoreItems(xs[1..]))
  }

  /** The server's list is a slice, and a slice without items may be nil, which encodes as null. */
  datatype Slice = Nil | Items(items: seq<string>)

  function ItemsOf(list: Slice): seq<string> { if list.Nil? then [] else list.items }

  function ServerJson(list: Slice): string {
    if list.Nil? then "null"
    else if list.items == [] then "[]"
    else "[" + (ServerQuote(list.items[0]) + ServerMoreItems(list.items[1..]))
  }

  /** The text the server signs for a command whose checklist it holds as `list`. */
  function ServerCanonical(c: Command, list: Slice): string
    requires ItemsOf(list) == c.checklist
  {
    JoinLines([c.commandId, c.hostUuid, c.targetService, c.migrationProfile, c.targetKem, c.targetSignature,
               c.configPath, ServerJson(list), Dec(c.rollbackWindow), c.patch, Dec(c.issuedAt), Bool(c.dryRun)])
  }

  ghost predicate PlainText(s: string) { forall i :: 0 <= i < |s| ==> s[i] !in SERVER_ESCAPED }

  lemma EscapesDiffer(a: char, b: char) returns (k: nat)
    requires a in SERVER_ESCAPED
    ensures k < |ServerEscape(a)| && k < |Escape(b)| && ServerEscape(a)[k] != Escape(b)[k]
  {
    k := if |Escape(b)| <= 2 then |Escape(b)| - 1 else if a == '\U{2028}' || a == '\U{2029}' then 2 else 4;
  }

  lemma ServerEscapeReads(a: char, u: string, b: char, v: string)
    requires ServerEscape(a) + u == Escape(b) + v
    ensures a !in SERVER_ESCAPED && a == b && u == v
  {
    var s, t := ServerEscape(a) + u, Escape(b) + v;
    assert forall k :: 0 <= k < |ServerEscape(a)| ==> s[k] == ServerEscape(a)[k];
    assert forall k :: 0 <= k < |Escape(b)| ==> t[k] == Escape(b)[k];
    if a in SERVER_ESCAPED {
      var k := EscapesDiffer(a, b);
    }
    EscapePrefixFree(a, u, b, v);
  }

  lemma ServerEscapeIsJson(c: char, u: string)
    ensures ReadChar(ServerEscape(c) + u) == (c, |ServerEscape(c)|)
    ensures c in SERVER_ESCAPED <==> c == '<' || c == '>' || c == '&' || c == '\U{2028}' || c == '\U{2029}'
  {
    if c in SERVER_ESCAPED {
      var s := ServerEscape(c) + u;
      assert forall i :: 0 <= i < |ServerEscape(c)| ==> s[i] == ServerEscape(c)[i];
    } else {
      EscapeReads(c, u);
    }
  }

  /** The server's escapes are JSON too: where the two texts differ, they still mean the same. */
  lemma {:induction false} ServerEscapesRead(s: string, u: string)
    ensures ReadString(ServerEscapeAll(s) + ("\"" + u)) == s
  {
    ServerBodyStarts(s, u);
    if s != [] {
      var rest := ServerEscapeAll(s[1..]) + ("\"" + u);
      ServerEscapeIsJson(s[0], rest);
      ServerEscapesRead(s[1..], u);
      assert (ServerEscape(s[0]) + rest)[|ServerEscape(s[0])|..] == rest;
      ServerEscapeLineFree(s[0]);
    }
  }

  lemma ServerEscapeLineFree(c: char)
    ensures LineFree(ServerEscape(c)) && ServerEscape(c) != [] && ServerEscape(c)[0] != '"'
  {
    EscapeLineFree(c);
  }

  /** What the agent reads out of a string the server wrote is the string, and holds none of the five characters. */
  lemma {:induction false} ServerBodyReads(s: string, u: string, t: string, v: string)
    requires ServerEscapeAll(s) + ("\"" + u) == EscapeAll(t) + ("\"" + v)
    ensures PlainText(s) && s == t && u == v
    decreases |s|
  {
    ServerBodyStarts(s, u);
    BodyStarts(t, v);
    if s == [] {
      SamePrefix("\"", u, v);
    } else {
      ServerEscapeReads(s[0], ServerEscapeAll(s[1..]) + ("\"" + u), t[0], EscapeAll(t[1..]) + ("\"" + v));
      ServerBodyReads(s[1..], u, t[1..], v);
      assert s == [s[0]] + s[1..] && t == [t[0]] + t[1..];
    }
  }

  lemma ServerBodyStarts(s: string, u: string)
    ensures var x := ServerEscapeAll(s) + ("\"" + u);
            if s == [] then x == "\"" + u && x[0] == '"'
            else x == ServerEscape(s[0]) + (ServerEscapeAll(s[1..]) + ("\"" + u)) && x[0] != '"'
  {
    if s != [] {
      ServerEscapeLineFree(s[0]);
      Assoc(ServerEscape(s[0]), ServerEscapeAll(s[1..]), "\"" + u);
    }
  }

  lemma ServerQuoteReads(s: string, u: string, t: string, v: string)
    requires ServerQuote(s) + u == Quote(t) + v
    ensures PlainText(s) && s == t && u == v
  {
    var x, y := ServerEscapeAll(s) + ("\"" + u), EscapeAll(t) + ("\"" + v);
    assert ServerQuote(s) + u == "\"" + x && Quote(t) + v == "\"" + y;
    SamePrefix("\"", x, y);
    ServerBodyReads(s, u, t, v);
  }

  ghost predicate AllPlain(xs: seq<string>) { forall x :: x in xs ==> PlainText(x) }

  lemma {:induction false} ServerItemsRead(xs: seq<string>, ys: seq<string>)
    requires ServerMoreItems(xs) == MoreItems(ys)
    ensures AllPlain(xs) && xs == ys
    decreases |xs|
  {
    assert ServerMoreItems(xs)[0] == MoreItems(ys)[0];
    if xs != [] {
      var x, y := ServerMoreItems(xs[1..]), MoreItems(ys[1..]);
      SamePrefix(",", ServerQuote(xs[0]) + x, Quote(ys[0]) + y);
      ServerQuoteReads(xs[0], x, ys[0], y);
      ServerItemsRead(xs[1..], ys[1..]);
      assert xs == [xs[0]] + xs[1..] && ys == [ys[0]] + ys[1..];
    }
  }

  lemma {:induction false} PlainEscapes(s: string)
    requires PlainText(s)
    ensures ServerEscapeAll(s) == EscapeAll(s)
  {
    if s != [] {
      PlainEscapes(s[1..]);
    }
  }

  lemma {:induction false} PlainItems(xs: seq<string>)
    requires AllPlain(xs)
    ensures ServerMoreItems(xs) == MoreItems(xs)
  {
    if xs != [] {
      PlainEscapes(xs[0]);
      PlainItems(xs[1..]);
    }
  }

  /** Server and agent write one text exactly for one list, not nil and free of the five characters. */
  lemma ServerJsonIff(list: Slice, ys: seq<string>)
    ensures ServerJson(list) == Json(ys) <==> list == Items(ys) && AllPlain(ys)
    ensures list == Nil ==> ServerJson(list) == "null"
  {
    if list == Items(ys) && AllPlain(ys) && ys != [] {
      PlainEscapes(ys[0]);
      PlainItems(ys[1..]);
    }
    if ServerJson(list) == Json(ys) {
      assert list.Items? by {
        assert Json(ys)[0] == '[';
      }
      ServerJsonReads(list.items, ys);
    }
  }

  lemma ServerJsonReads(xs: seq<string>, ys: seq<string>)
    requires ServerJson(Items(xs)) == Json(ys)
    ensures AllPlain(xs) && xs == ys
  {
    assert ServerJson(Items(xs))[1] == Json(ys)[1];
    if xs != [] {
      var x, y := ServerMoreItems(xs[1..]), MoreItems(ys[1..]);
      SamePrefix("[", ServerQuote(xs[0]) + x, Quote(ys[0]) + y);
      ServerQuoteReads(xs[0], x, ys[0], y);
      SamePrefix([], x, y);
      ServerItemsRead(xs[1..], ys[1..]);
      assert xs == [xs[0]] + xs[1..] && ys == [ys[0]] + ys[1..];
    }
  }

  /** So the text the server signs is the text the agent checks exactly in that case. */
  lemma CanonicalsAgreeIff(c: Command, list: Slice)
    requires ItemsOf(list) == c.checklist
    ensures ServerCanonical(c, list) == Canonical(c) <==> list.Items? && AllPlain(c.checklist)
  {
    var j, k := ServerJson(list), Json(c.checklist);
    TextParts(c, j);
    TextParts(c, k);
    if ServerCanonical(c, list) == Canonical(c) {
      var tail := "\n" + (Dec(c.rollbackWindow) + ("\n" + Last(c)));
      SamePrefix(EndLines(Leading(c)), j + tail, k + tail);
      assert |j| == |k|;
      assert j == (j + tail)[..|j|] && k == (k + tail)[..|k|];
    }
    ServerJsonIff(list, c.checklist);
  }

  /** The marker of a checklist entry that carries the checksum of the configuration to be changed. */
  const CHECKSUM := "checksum="

  const CHECKS := ["config-syntax", "daemon-reload", "tls13-handshake", "hybrid-mlkem-observed"]

  /** The checklist the server builds, with the checksum the agent last reported if there is one. */
  function BuildChecklist(checksum: string): seq<string> {
    CHECKS + if checksum == "" then [] else [CHECKSUM + checksum]
  }

  lemma ChecklistIs(checksum: string)
    ensures BuildChecklist(checksum) ==
            ["config-syntax", "daemon-reload", "tls13-handshake", "hybrid-mlkem-observed"]
            + if checksum == "" then [] else ["checksum=" + checksum]
  {
  }

  lemma ChecksArePlain()
    ensures AllPlain(CHECKS)
  {
    assert PlainText(CHECKS[0]) && PlainText(CHECKS[1]) && PlainText(CHECKS[2]) && PlainText(CHECKS[3]);
  }

  lemma ChecksumEntryIsPlainIff(checksum: string)
    ensures PlainText(CHECKSUM + checksum) <==> PlainText(checksum)
  {
    var s := CHECKSUM + checksum;
    assert forall i :: 0 <= i < |checksum| ==> checksum[i] == s[|CHECKSUM| + i];
  }

  /** It is written alike by both sides exactly when the reported checksum is. */
  lemma BuiltIsPlainIff(checksum: string)
    ensures AllPlain(BuildChecklist(checksum)) <==> PlainText(checksum)
  {
    ChecksArePlain();
    ChecksumEntryIsPlainIff(checksum);
    assert checksum != "" ==> BuildChecklist(checksum)[4] == CHECKSUM + checksum;
  }

  // ---------------------------------------------------------------------------
  // What the agent may read in a text the server signed
  // ---------------------------------------------------------------------------

  lemma {:induction false} ServerEscapesLineFree(s: string)
    ensures LineFree(ServerEscapeAll(s))
  {
    if s != [] {
      ServerEscapeLineFree(s[0]);
      ServerEscapesLineFree(s[1..]);
    }
  }

  lemma {:induction false} ServerItemsLineFree(xs: seq<string>)
    ensures LineFree(ServerMoreItems(xs))
  {
    if xs != [] {
      ServerEscapesLineFree(xs[0]);
      ServerItemsLineFree(xs[1..]);
    }
  }

  lemma ServerJsonLineFree(list: Slice)
    ensures LineFree(ServerJson(list))
  {
    if list.Items? && list.items != [] {
      ServerEscapesLineFree(list.items[0]);
      ServerItemsLineFree(list.items[1..]);
    }
  }

  /** The text the server signs; the checklist of a command it builds is never nil. */
  function Signed(c: Command): string { ServerCanonical(c, Items(c.checklist)) }

  lemma SignedText(c: Command)
    ensures Signed(c) == TextWith(c, ServerJson(Items(c.checklist))) && LineFree(ServerJson(Items(c.checklist)))
  {
    TextParts(c, ServerJson(Items(c.checklist)));
    ServerJsonLineFree(Items(c.checklist));
  }

  /** No other command has this one's text. */
  ghost predicate Unmistakable(c: Command) { LeadingLineFree(c) && !Ambiguous(c.patch) }

  /** The agent reads no other command in what the server signs for an unmistakable one. */
  lemma SignedReadsAsItself(c: Command, d: Command)
    requires Unmistakable(c) && Canonical(d) == Signed(c)
    ensures d == c
  {
    var j := ServerJson(Items(c.checklist));
    SignedText(c);
    if !LeadingLineFree(d) {
      CollisionIsAmbiguous(c, j, d);
    }
    TextInjective(c, j, d);
    ServerJsonReads(c.checklist, d.checklist);
  }

  /** Seven lines or more, and then the last five fields of some command. */
  ghost predicate Readable(text: string) { exists lead: string, d: Command :: ReadableAs(text, lead, d) }

  ghost predicate ReadableAs(text: string, lead: string, d: Command) {
    Breaks(lead) >= 7 && EndsLine(lead) && text == lead + Rest(d)
  }

  lemma {:induction false} FirstBreak(s: string) returns (i: nat)
    requires Breaks(s) > 0
    ensures i < |s| && s[i] == '\n' && Breaks(s[i + 1..]) == Breaks(s) - 1
  {
    if s[0] == '\n' {
      i := 0;
    } else {
      i := FirstBreak(s[1..]);
      assert s[1..][i + 1..] == s[i + 2..];
      i := i + 1;
    }
  }

  /** A text of at least k lines is k fields, the last of which takes all that is left. */
  lemma {:induction false} FieldsOf(text: string, k: nat) returns (xs: seq<string>)
    requires 1 <= k <= Breaks(text) && EndsLine(text)
    ensures |xs| == k && EndLines(xs) == text
    decreases k
  {
    if k == 1 {
      xs := [text[..|text| - 1]];
      EndOne(xs[0]);
    } else {
      var i := FirstBreak(text);
      var more := FieldsOf(text[i + 1..], k - 1);
      xs := [text[..i]] + more;
      EndLinesConcat([text[..i]], more);
      EndOne(text[..i]);
      assert text == text[..i] + "\n" + text[i + 1..];
    }
  }

  /** The readable texts are those of commands. */
  lemma ReadableIff(text: string)
    ensures Readable(text) <==> exists d: Command :: Canonical(d) == text
  {
    if lead: string, c: Command :| ReadableAs(text, lead, c) {
      var xs := FieldsOf(lead, 7);
      CanonicalParts(WithLeading(c, xs));
      assert Canonical(WithLeading(c, xs)) == text;
    }
    if d: Command :| Canonical(d) == text {
      CanonicalParts(d);
      BreaksOfLines(Leading(d));
      assert ReadableAs(text, EndLines(Leading(d)), d);
    }
  }

  /** Exactly which commands the server signs with a text that reads, for the agent, as some other command. */
  lemma SignedMistakenIff(c: Command)
    ensures (exists d: Command :: d != c && Canonical(d) == Signed(c))
            <==> if LeadingLineFree(c) then Ambiguous(c.patch) else AllPlain(c.checklist) || Readable(Signed(c))
  {
    CanonicalsAgreeIff(c, Items(c.checklist));
    if d: Command :| d != c && Canonical(d) == Signed(c) {
      ReadableIff(Signed(c));
      if Unmistakable(c) {
        SignedReadsAsItself(c, d);
      }
    }
    if LeadingLineFree(c) && Ambiguous(c.patch) {
      var pre, xs, n, rest :| SplitsAs(c.patch, pre, xs, n, rest);
      SignedText(c);
      ShiftedCollides(c, ServerJson(Items(c.checklist)), pre, xs, n, rest);
    }
    if !LeadingLineFree(c) {
      SharesTextIff(c);
      ReadableIff(Signed(c));
    }
  }

  /**
   With an ambiguous patch and an escaped character in the checklist, what the server signs is not the text of
   the command itself, but it is the text of another one.
   */
  lemma SignedForAnother(c: Command, pre: string, xs: seq<string>, n: u32, rest: string)
    requires SplitsAs(c.patch, pre, xs, n, rest) && !AllPlain(c.checklist)
    ensures Signed(c) != Canonical(c)
    ensures var d := Shifted(c, ServerJson(Items(c.checklist)), pre, xs, n, rest);
            d != c && Canonical(d) == Signed(c)
  {
    CanonicalsAgreeIff(c, Items(c.checklist));
    SignedText(c);
    ShiftedCollides(c, ServerJson(Items(c.checklist)), pre, xs, n, rest);
  }

  lemma OneEscaped()
    ensures ServerJson(Items(["<"])) == "[\"\\u003c\"]" && !AllPlain(["<"])
  {
    assert ServerEscapeAll("<") == "\\u003c";
    assert "<"[0] == '<' && "<" in ["<"];
  }

  lemma ShiftedExample(c: Command, j: string)
    requires c == Command("", "", "", "", "", "", "", ["<"], 0, "[]\n0\n", 0, false)
    ensures Shifted(c, j, "", [], 0, "") == Command("\n\n", "", "", "", "", j, "0", [], 0, "", 0, false)
  {
    assert "" + "\n" + "" + "\n" + "" == "\n\n";
    assert Dec(0) + "" == "0";
  }

  /** Such a pair of commands: the server signs the first, and the agent reads the second. */
  lemma RejectedAndAccepted(c: Command, d: Command)
    requires c == Command("", "", "", "", "", "", "", ["<"], 0, "[]\n0\n", 0, false)
    requires d == Command("\n\n", "", "", "", "", "[\"\\u003c\"]", "0", [], 0, "", 0, false)
    ensures c != d && Signed(c) != Canonical(c) && Signed(c) == Canonical(d)
  {
    OneEscaped();
    SplitsEmpty();
    SignedForAnother(c, "", [], 0, "");
    ShiftedExample(c, ServerJson(Items(c.checklist)));
  }

  lemma SplitsEmpty()
    ensures SplitsAs("[]\n0\n", "", [], 0, "")
  {
    assert Json([]) == "[]" && Dec(0) == "0";
  }
}
