/** Cutting text at a separator, searching it, and ASCII letter case. */
module Text {
  function LowerChar(c: char): char { if 'A' <= c <= 'Z' then c + 32 as char else c }

  /** ASCII lower case, character by character. */
  function Lower(s: string): (r: string)
    ensures |r| == |s| && forall i :: 0 <= i < |s| ==> r[i] == LowerChar(s[i])
  {
    seq(|s|, i requires 0 <= i < |s| => LowerChar(s[i]))
  }

  function UpperChar(c: char): char { if 'a' <= c <= 'z' then c - 32 as char else c }

  function Upper(s: string): (r: string)
    ensures |r| == |s| && forall i :: 0 <= i < |s| ==> r[i] == UpperChar(s[i])
  {
    seq(|s|, i requires 0 <= i < |s| => UpperChar(s[i]))
  }

  /** The 26 letters, and only they, have two cases. */
  lemma CaseLaws(c: char)
    ensures 'A' <= c <= 'Z' ==> LowerChar(c) as int - 'a' as int == c as int - 'A' as int
    ensures 'a' <= c <= 'z' ==> UpperChar(c) as int - 'A' as int == c as int - 'a' as int
    ensures !('A' <= c <= 'Z') ==> LowerChar(c) == c
    ensures !('a' <= c <= 'z') ==> UpperChar(c) == c
  {
  }

  predicate OccursAt(s: string, i: nat, needle: string) {
    i + |needle| <= |s| && s[i..i + |needle|] == needle
  }

  predicate Contains(s: string, needle: string) {
    exists i :: 0 <= i <= |s| && OccursAt(s, i, needle)
  }

  lemma ContainsIff(s: string, needle: string)
    ensures Contains(s, needle) <==> exists a: string, b: string :: s == a + needle + b
  {
    if i :| 0 <= i <= |s| && OccursAt(s, i, needle) {
      assert s == s[..i] + needle + s[i + |needle|..];
    }
    if a: string, b: string :| s == a + needle + b {
      assert s[|a|..|a| + |needle|] == needle;
      assert OccursAt(s, |a|, needle);
    }
  }

  /** The index of the first `c`, or the length if there is none. */
  function FirstOf(s: string, c: char): (k: nat)
    ensures k <= |s| && c !in s[..k]
    ensures k < |s| ==> s[k] == c
  {
    if s == [] || s[0] == c then 0 else
      var k := FirstOf(s[1..], c);
      assert s[..k + 1] == [s[0]] + s[1..][..k];
      k + 1
  }

  /** The pieces between the separators; at least one piece. */
  function Split(s: string, c: char): (parts: seq<string>)
    ensures parts != [] && forall i :: 0 <= i < |parts| ==> c !in parts[i]
    decreases |s|
  {
    var k := FirstOf(s, c);
    if k == |s| then
      assert s[..k] == s;
      [s]
    else [s[..k]] + Split(s[k + 1..], c)
  }

  lemma FirstOfIs(a: string, c: char, u: string)
    requires c !in a
    ensures FirstOf(a + ([c] + u), c) == |a|
    ensures FirstOf(a, c) == |a|
  {
    var s := a + ([c] + u);
    assert forall i :: 0 <= i < |a| ==> s[i] == a[i];
    forall k | |a| < k <= |s|
      ensures c in s[..k]
    {
      assert s[..k][|a|] == c;
    }
  }

  lemma SplitOne(a: string, c: char)
    requires c !in a
    ensures Split(a, c) == [a]
  {
    FirstOfIs(a, c, "");
    assert a[..|a|] == a;
  }

  lemma SplitHead(a: string, c: char, u: string)
    requires c !in a
    ensures Split(a + ([c] + u), c) == [a] + Split(u, c)
  {
    var s := a + ([c] + u);
    FirstOfIs(a, c, u);
    assert s[..|a|] == a && s[|a| + 1..] == u;
  }

  lemma SplitThree(a: string, b: string, d: string, c: char)
    requires c !in a && c !in b && c !in d
    ensures Split(a + ([c] + (b + ([c] + d))), c) == [a, b, d]
  {
    SplitHead(a, c, b + ([c] + d));
    SplitHead(b, c, d);
    SplitOne(d, c);
  }

  /** The text is its first piece, the separator and what the other pieces were cut from. */
  lemma SplitTail(s: string, c: char) returns (u: string)
    requires |Split(s, c)| > 1
    ensures s == Split(s, c)[0] + ([c] + u) && Split(u, c) == Split(s, c)[1..]
  {
    var k := FirstOf(s, c);
    u := s[k + 1..];
    assert s == s[..k] + ([c] + u);
  }

  /** Text with three pieces is those pieces joined. */
  lemma ThreePieces(s: string, c: char)
    requires |Split(s, c)| == 3
    ensures var parts := Split(s, c); s == parts[0] + ([c] + (parts[1] + ([c] + parts[2])))
  {
    var u := SplitTail(s, c);
    var v := SplitTail(u, c);
    assert Split(v, c) == [Split(s, c)[2]];
    assert v == Split(v, c)[0];
  }
}
