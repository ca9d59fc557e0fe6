/**
Signature envelopes of migration commands.  The cryptographic primitives are abstract functions; the
checks around them (line splitting, lengths, all-zero guards, fingerprint comparison, downgrade
rejection) are the agent's.  An accepted command is then traced back to the server's signing log.
*/
module Envelope {
  import opened Options
  import opened Bytes
  import opened Commands
  import opened Text

  const PK_LEN := 1952
  const SIG_LEN := 3309
  const ENVELOPE_V1 := "janus-sig-v1"
  const ENVELOPE_V2 := "janus-sig-v2"

  /** The primitives: keyed hash (hex), base64, UTF-8, key fingerprint (hex), signature checks, certificate chain. */
  datatype Crypto = Crypto(
    hmacHex: (string, string) -> string,
    encode64: seq<byte> -> string,
    decode64: string -> Option<seq<byte>>,
    utf8: seq<byte> -> Option<string>,
    fingerprint: seq<byte> -> string,
    keyParses: seq<byte> -> bool,
    mldsaVerify: (seq<byte>, string, seq<byte>) -> bool,
    leafKey: (seq<byte>, seq<byte>) -> Option<seq<byte>>,
    readCert: string -> Option<seq<byte>>)

  /** What the agent trusts: the shared key, an optional root certificate path, an optional pinned fingerprint. */
  datatype Trust = Trust(key: string, rootPath: Option<string>, fingerprint: string)

  /** Unicode white space, which is what trimming removes. */
  predicate IsSpace(c: char) {
    || '\t' <= c <= '\r' || c == ' ' || c == '\U{0085}' || c == '\U{00A0}' || c == '\U{1680}'
    || '\U{2000}' <= c <= '\U{200A}' || c == '\U{2028}' || c == '\U{2029}' || c == '\U{202F}' || c == '\U{205F}'
    || c == '\U{3000}'
  }

  function TrimStart(s: string): string { if s != [] && IsSpace(s[0]) then TrimStart(s[1..]) else s }

  function TrimEnd(s: string): string { if s != [] && IsSpace(s[|s| - 1]) then TrimEnd(s[..|s| - 1]) else s }

  function Trim(s: string): string { TrimEnd(TrimStart(s)) }

  predicate AllZero(s: seq<byte>) { forall i :: 0 <= i < |s| ==> s[i] == 0 }

  function StripPrefix(s: string, prefix: string): Option<string> {
    if prefix <= s then Some(s[|prefix|..]) else None
  }

  // ---------------------------------------------------------------------------
  // Verification
  // ---------------------------------------------------------------------------

  predicate VerifyHmac(cr: Crypto, key: string, canonical: string, hex: string) {
    cr.hmacHex(key, canonical) == hex
  }

  /** Key and signature in raw bytes: the guards before the primitive is asked. */
  predicate VerifyWithKey(cr: Crypto, pk: seq<byte>, canonical: string, sig: seq<byte>) {
    && !AllZero(pk) && |pk| == PK_LEN && cr.keyParses(pk)
    && !AllZero(sig) && |sig| == SIG_LEN
    && cr.mldsaVerify(pk, canonical, sig)
  }

  predicate VerifyMldsa(cr: Crypto, pinned: string, sig64: string, pub64: string, canonical: string) {
    var pub, sig := cr.decode64(pub64), cr.decode64(sig64);
    && pub.Some? && !AllZero(pub.value)
    && Lower(cr.fingerprint(pub.value)) == Lower(Trim(pinned))
    && |pub.value| == PK_LEN && cr.keyParses(pub.value)
    && sig.Some? && !AllZero(sig.value) && |sig.value| == SIG_LEN
    && cr.mldsaVerify(pub.value, canonical, sig.value)
  }

  predicate VerifyCommand(cr: Crypto, directive: seq<byte>, canonical: string, key: string, pinned: Option<string>) {
    var sd := cr.utf8(directive);
    sd.Some? &&
    var rest := StripPrefix(sd.value, ENVELOPE_V1 + "\n");
    if rest.None? then VerifyHmac(cr, key, canonical, sd.value) && pinned.None?
    else
      var parts := Split(rest.value, '\n');
      && |parts| == 3
      && VerifyHmac(cr, key, canonical, parts[0])
      && (pinned.Some? ==> VerifyMldsa(cr, pinned.value, parts[1], parts[2], canonical))
  }

  predicate VerifyCommandV2(cr: Crypto, directive: seq<byte>, canonical: string, key: string, root: seq<byte>) {
    var sd := cr.utf8(directive);
    sd.Some? &&
    var rest := StripPrefix(sd.value, ENVELOPE_V2 + "\n");
    rest.Some? &&
    var parts := Split(rest.value, '\n');
    && |parts| == 3
    && VerifyHmac(cr, key, canonical, parts[0])
    && cr.decode64(parts[2]).Some? && cr.decode64(parts[1]).Some?
    && cr.leafKey(cr.decode64(parts[2]).value, root).Some?
    && VerifyWithKey(cr, cr.leafKey(cr.decode64(parts[2]).value, root).value, canonical, cr.decode64(parts[1]).value)
  }

  /** A configured root takes precedence and fails closed; an empty fingerprint pins nothing. */
  function RootConfigured(t: Trust): Option<string> {
    if t.rootPath.Some? && Trim(t.rootPath.value) != [] then Some(Trim(t.rootPath.value)) else None
  }

  function Pinned(t: Trust): Option<string> {
    if Trim(t.fingerprint) == [] then None else Some(Trim(t.fingerprint))
  }

  predicate Verify(cr: Crypto, t: Trust, cmd: Command, directive: seq<byte>) {
    var root := RootConfigured(t);
    if root.Some? then
      var der := cr.readCert(root.value);
      der.Some? && VerifyCommandV2(cr, directive, Canonical(cmd), t.key, der.value)
    else VerifyCommand(cr, directive, Canonical(cmd), t.key, Pinned(t))
  }

  // ---------------------------------------------------------------------------
  // What acceptance means
  // ---------------------------------------------------------------------------

  /** The text presented as the keyed hash. */
  function Tag(cr: Crypto, t: Trust, directive: seq<byte>): string {
    var sd := cr.utf8(directive);
    if sd.None? then "" else
      var rest := StripPrefix(sd.value, (if RootConfigured(t).Some? then ENVELOPE_V2 else ENVELOPE_V1) + "\n");
      if rest.None? then sd.value else Split(rest.value, '\n')[0]
  }

  /** Ideal keyed hash: whatever text hashes to a known tag was signed by the server. */
  ghost predicate OnlyLogged(cr: Crypto, key: string, log: set<Command>, known: set<string>) {
    forall text: string :: cr.hmacHex(key, text) in known ==> exists c :: c in log && Signed(c) == text
  }

  /** The server signed this command, or a mistakable one with what this one reads. */
  ghost predicate Identified(log: set<Command>, cmd: Command) {
    cmd in log || exists c :: c in log && Signed(c) == Canonical(cmd) && !Unmistakable(c)
  }

  lemma AcceptedTag(cr: Crypto, t: Trust, cmd: Command, directive: seq<byte>)
    requires Verify(cr, t, cmd, directive)
    ensures cr.hmacHex(t.key, Canonical(cmd)) == Tag(cr, t, directive)
  {
  }

  /**
   Acceptance identifies the command: an accepted command is one the server signed, field by field, or
   else it reads what was signed for a command that has an ambiguous patch or a line break in a leading field.
   */
  lemma AcceptedWasSigned(cr: Crypto, t: Trust, cmd: Command, directive: seq<byte>, log: set<Command>,
                          known: set<string>)
    requires Verify(cr, t, cmd, directive)
    requires Tag(cr, t, directive) in known && OnlyLogged(cr, t.key, log, known)
    ensures Identified(log, cmd)
    ensures LeadingLineFree(cmd) && (forall c :: c in log ==> LeadingLineFree(c)) ==> cmd in log
  {
    AcceptedTag(cr, t, cmd, directive);
    var c :| c in log && Signed(c) == Canonical(cmd);
    if Unmistakable(c) {
      SignedReadsAsItself(c, cmd);
    }
    if LeadingLineFree(cmd) && LeadingLineFree(c) {
      SignedText(c);
      TextInjective(c, ServerJson(Items(c.checklist)), cmd);
      ServerJsonReads(c.checklist, cmd.checklist);
    }
  }

  /** With a collision-free keyed hash, one directive admits one command exactly when no other command has its text. */
  lemma DirectiveIdentifiesIff(cr: Crypto, t: Trust, c: Command, directive: seq<byte>)
    requires Verify(cr, t, c, directive)
    requires forall x, y :: cr.hmacHex(t.key, x) == cr.hmacHex(t.key, y) ==> x == y
    ensures (forall d :: Verify(cr, t, d, directive) ==> d == c) <==> LeadingLineFree(c) && !Ambiguous(c.patch)
  {
    SharesTextIff(c);
    AcceptedTag(cr, t, c, directive);
    forall d | Verify(cr, t, d, directive)
      ensures Canonical(d) == Canonical(c)
    {
      AcceptedTag(cr, t, d, directive);
    }
    forall d | Canonical(d) == Canonical(c)
      ensures Verify(cr, t, d, directive)
    {
    }
  }

  /** With a pinned fingerprint and no root, acceptance also carries a signature under a key with that fingerprint. */
  lemma PinnedCarriesSignature(cr: Crypto, t: Trust, cmd: Command, directive: seq<byte>)
    returns (pk: seq<byte>, sig: seq<byte>)
    requires Verify(cr, t, cmd, directive) && RootConfigured(t).None? && Pinned(t).Some?
    ensures Lower(cr.fingerprint(pk)) == Lower(Trim(Pinned(t).value))
    ensures VerifyWithKey(cr, pk, Canonical(cmd), sig)
  {
    var parts := Split(StripPrefix(cr.utf8(directive).value, ENVELOPE_V1 + "\n").value, '\n');
    pk, sig := cr.decode64(parts[2]).value, cr.decode64(parts[1]).value;
  }

  /** With a root, acceptance also carries a signature under a key the root vouches for. */
  lemma RootCarriesSignature(cr: Crypto, t: Trust, cmd: Command, directive: seq<byte>)
    returns (leaf: seq<byte>, pk: seq<byte>, sig: seq<byte>)
    requires Verify(cr, t, cmd, directive) && RootConfigured(t).Some?
    ensures var root := cr.readCert(RootConfigured(t).value);
            root.Some? && cr.leafKey(leaf, root.value) == Some(pk)
    ensures VerifyWithKey(cr, pk, Canonical(cmd), sig)
  {
    var root := cr.readCert(RootConfigured(t).value).value;
    var parts := Split(StripPrefix(cr.utf8(directive).value, ENVELOPE_V2 + "\n").value, '\n');
    leaf, sig := cr.decode64(parts[2]).value, cr.decode64(parts[1]).value;
    pk := cr.leafKey(leaf, root).value;
  }

  // ---------------------------------------------------------------------------
  // What the settings bind, in their own words
  // ---------------------------------------------------------------------------

  const WHITE := {' ', '\t', '\n', '\U{000B}', '\U{000C}', '\r', '\U{0085}', '\U{00A0}', '\U{1680}', '\U{2000}',
                  '\U{2001}', '\U{2002}', '\U{2003}', '\U{2004}', '\U{2005}', '\U{2006}', '\U{2007}', '\U{2008}',
                  '\U{2009}', '\U{200A}', '\U{2028}', '\U{2029}', '\U{202F}', '\U{205F}', '\U{3000}'}

  lemma SpaceIsWhite(c: char)
    ensures IsSpace(c) <==> c in WHITE
  {
  }

  /** Nothing but white space. */
  ghost predicate Blank(s: string) { forall i :: 0 <= i < |s| ==> s[i] in WHITE }

  /** White space at neither end. */
  ghost predicate Tidy(s: string) { s != [] ==> s[0] !in WHITE && s[|s| - 1] !in WHITE }

  lemma {:induction false} TrimEndLaws(s: string)
    ensures TrimEnd(s) == [] <==> Blank(s)
    ensures s != [] && s[|s| - 1] !in WHITE ==> TrimEnd(s) == s
    ensures TrimEnd(s) != [] ==> TrimEnd(s)[|TrimEnd(s)| - 1] !in WHITE && TrimEnd(s)[0] == s[0]
    decreases |s|
  {
    if s != [] {
      SpaceIsWhite(s[|s| - 1]);
      TrimEndLaws(s[..|s| - 1]);
    }
  }

  lemma {:induction false} TrimStartLaws(s: string)
    ensures Blank(TrimStart(s)) <==> Blank(s)
    ensures s != [] && s[0] !in WHITE ==> TrimStart(s) == s
    ensures TrimStart(s) != [] ==> TrimStart(s)[0] !in WHITE
    decreases |s|
  {
    if s != [] {
      SpaceIsWhite(s[0]);
      TrimStartLaws(s[1..]);
      assert forall i :: 0 < i < |s| ==> s[i] == s[1..][i - 1];
    }
  }

  lemma TrimLaws(s: string)
    ensures Trim(s) == [] <==> Blank(s)
    ensures Tidy(s) ==> Trim(s) == s
    ensures Tidy(Trim(s))
  {
    TrimStartLaws(s);
    TrimEndLaws(TrimStart(s));
  }

  ghost predicate NoRoot(t: Trust) { t.rootPath == None || Blank(t.rootPath.value) }

  lemma Settings(t: Trust)
    ensures RootConfigured(t) == None <==> NoRoot(t)
    ensures Pinned(t) == None <==> Blank(t.fingerprint)
    ensures Pinned(t).Some? ==> Tidy(Pinned(t).value) && (Tidy(t.fingerprint) ==> Pinned(t).value == t.fingerprint)
    ensures RootConfigured(t).Some? && Tidy(t.rootPath.value) ==> RootConfigured(t).value == t.rootPath.value
  {
    TrimLaws(t.fingerprint);
    if t.rootPath.Some? {
      TrimLaws(t.rootPath.value);
    }
  }

  /** What a key and a signature must be for the signature to be looked at, and then to hold. */
  lemma KeyGuards(cr: Crypto, pk: seq<byte>, canonical: string, sig: seq<byte>)
    ensures VerifyWithKey(cr, pk, canonical, sig) <==>
            && |pk| == 1952 && |sig| == 3309
            && (exists i :: 0 <= i < 1952 && pk[i] != 0) && (exists i :: 0 <= i < 3309 && sig[i] != 0)
            && cr.keyParses(pk) && cr.mldsaVerify(pk, canonical, sig)
  {
  }

  /** A fingerprint in the settings binds every accepted command to a signature under the key it is of. */
  lemma FingerprintBinds(cr: Crypto, t: Trust, cmd: Command, directive: seq<byte>)
    returns (pk: seq<byte>, sig: seq<byte>)
    requires Verify(cr, t, cmd, directive) && NoRoot(t) && !Blank(t.fingerprint)
    ensures VerifyWithKey(cr, pk, Canonical(cmd), sig)
    ensures Tidy(t.fingerprint) ==> Lower(cr.fingerprint(pk)) == Lower(t.fingerprint)
  {
    Settings(t);
    TrimLaws(Pinned(t).value);
    pk, sig := PinnedCarriesSignature(cr, t, cmd, directive);
  }

  /** A root in the settings takes precedence, and only a version 2 envelope under one of its leaves is accepted. */
  lemma RootBinds(cr: Crypto, t: Trust, cmd: Command, directive: seq<byte>)
    returns (path: string, leaf: seq<byte>, pk: seq<byte>, sig: seq<byte>)
    requires Verify(cr, t, cmd, directive) && !NoRoot(t)
    ensures cr.utf8(directive).Some? && "janus-sig-v2\n" <= cr.utf8(directive).value
    ensures Tidy(t.rootPath.value) ==> path == t.rootPath.value
    ensures cr.readCert(path).Some? && cr.leafKey(leaf, cr.readCert(path).value) == Some(pk)
    ensures VerifyWithKey(cr, pk, Canonical(cmd), sig)
  {
    Settings(t);
    leaf, pk, sig := RootCarriesSignature(cr, t, cmd, directive);
    path := RootConfigured(t).value;
    assert ENVELOPE_V2 + "\n" == "janus-sig-v2\n";
  }

  /** With either in the settings, the bare keyed hash is no longer enough. */
  lemma NoDowngrade(cr: Crypto, t: Trust, cmd: Command, directive: seq<byte>)
    requires !NoRoot(t) || !Blank(t.fingerprint)
    requires cr.utf8(directive).Some? && LineFree(cr.utf8(directive).value)
    ensures !Verify(cr, t, cmd, directive)
  {
    Settings(t);
    NoPrefix(cr.utf8(directive).value, ENVELOPE_V1);
    NoPrefix(cr.utf8(directive).value, ENVELOPE_V2);
  }

  /** With neither, it is exactly what is needed. */
  lemma BareHashSuffices(cr: Crypto, t: Trust, cmd: Command, directive: seq<byte>)
    requires NoRoot(t) && Blank(t.fingerprint)
    requires cr.utf8(directive).Some? && LineFree(cr.utf8(directive).value)
    ensures Verify(cr, t, cmd, directive) <==> cr.utf8(directive).value == cr.hmacHex(t.key, Canonical(cmd))
  {
    Settings(t);
    NoPrefix(cr.utf8(directive).value, ENVELOPE_V1);
  }

  lemma ThreeLines(text: string, header: string) returns (b: string, c: string)
    requires StripPrefix(text, header).Some? && |Split(StripPrefix(text, header).value, '\n')| == 3
    ensures text == header + (Split(StripPrefix(text, header).value, '\n')[0] + ("\n" + (b + ("\n" + c))))
    ensures LineFree(b) && LineFree(c)
  {
    var body := StripPrefix(text, header).value;
    var parts := Split(body, '\n');
    b, c := parts[1], parts[2];
    ThreePieces(body, '\n');
    assert text == header + body;
  }

  /**
   In every mode the keyed hash of the command's text is presented: alone, or on the first of exactly three
   lines after the header.
   */
  lemma HashIsPresented(cr: Crypto, t: Trust, cmd: Command, directive: seq<byte>) returns (b: string, c: string)
    requires Verify(cr, t, cmd, directive)
    ensures cr.utf8(directive).Some? && LineFree(b) && LineFree(c)
    ensures var hmac := cr.hmacHex(t.key, Canonical(cmd));
            cr.utf8(directive).value in {hmac, "janus-sig-v1\n" + (hmac + ("\n" + (b + ("\n" + c)))),
                                         "janus-sig-v2\n" + (hmac + ("\n" + (b + ("\n" + c))))}
  {
    var text, root := cr.utf8(directive).value, RootConfigured(t).Some?;
    b, c := "", "";
    assert ENVELOPE_V1 + "\n" == "janus-sig-v1\n" && ENVELOPE_V2 + "\n" == "janus-sig-v2\n";
    if root {
      b, c := ThreeLines(text, ENVELOPE_V2 + "\n");
    } else if StripPrefix(text, ENVELOPE_V1 + "\n").Some? {
      b, c := ThreeLines(text, ENVELOPE_V1 + "\n");
    }
  }

  // ---------------------------------------------------------------------------
  // The server's signer, and that the agent accepts what it signs
  // ---------------------------------------------------------------------------

  datatype Signer = Signer(key: string, publicKey: Option<seq<byte>>, certificate: Option<seq<byte>>)

  function JoinEnvelope(version: string, hmac: string, sig64: string, key64: string): string {
    version + "\n" + (hmac + ("\n" + (sig64 + ("\n" + key64))))
  }

  const SIGNED_V1 := "janus-sig-v1"  // the server's own constants
  const SIGNED_V2 := "janus-sig-v2"

  /** The signed directive: the bare hash, or a version 1 or 2 envelope when a second signer is set. */
  function Sign(cr: Crypto, s: Signer, cmd: Command, sig: seq<byte>): string {
    var hmac := cr.hmacHex(s.key, Signed(cmd));
    if s.publicKey.None? then hmac
    else if s.certificate.Some? then JoinEnvelope(SIGNED_V2, hmac, cr.encode64(sig), cr.encode64(s.certificate.value))
    else JoinEnvelope(SIGNED_V1, hmac, cr.encode64(sig), cr.encode64(s.publicKey.value))
  }

  /** What is assumed of the encodings: base64 round-trips, and neither it nor the hex hash contains a line break. */
  ghost predicate SoundEncodings(cr: Crypto) {
    && (forall b :: cr.decode64(cr.encode64(b)) == Some(b) && LineFree(cr.encode64(b)))
    && (forall k, m :: LineFree(cr.hmacHex(k, m)))
  }

  /** The agent's trust settings match the signer's mode. */
  ghost predicate Matches(cr: Crypto, s: Signer, t: Trust) {
    s.key == t.key &&
    if s.publicKey.None? then RootConfigured(t).None? && Pinned(t).None?
    else if s.certificate.Some? then
      && RootConfigured(t).Some?
      && var root := cr.readCert(RootConfigured(t).value);
         root.Some? && cr.leafKey(s.certificate.value, root.value) == s.publicKey
    else
      RootConfigured(t).None? &&
      (Pinned(t).Some? ==> Lower(cr.fingerprint(s.publicKey.value)) == Lower(Trim(Pinned(t).value)))
  }

  lemma EnvelopeSplits(version: string, a: string, b: string, c: string)
    requires LineFree(a) && LineFree(b) && LineFree(c)
    ensures var rest := StripPrefix(JoinEnvelope(version, a, b, c), version + "\n");
            rest.Some? && Split(rest.value, '\n') == [a, b, c]
  {
    var body := a + ("\n" + (b + ("\n" + c)));
    assert JoinEnvelope(version, a, b, c)[|version + "\n"|..] == body;
    SplitThree(a, b, c, '\n');
  }

  /** In a mode the agent trusts, the agent takes the tag the server wrote. */
  lemma SignedTag(cr: Crypto, s: Signer, t: Trust, cmd: Command, sig: seq<byte>, directive: seq<byte>)
    requires SoundEncodings(cr) && Matches(cr, s, t)
    requires cr.utf8(directive) == Some(Sign(cr, s, cmd, sig))
    ensures Tag(cr, t, directive) == cr.hmacHex(t.key, Signed(cmd))
  {
    var hmac := cr.hmacHex(s.key, Signed(cmd));
    if s.publicKey.None? {
      NoPrefix(hmac, ENVELOPE_V1);
    } else if s.certificate.Some? {
      EnvelopeSplits(ENVELOPE_V2, hmac, cr.encode64(sig), cr.encode64(s.certificate.value));
    } else {
      EnvelopeSplits(ENVELOPE_V1, hmac, cr.encode64(sig), cr.encode64(s.publicKey.value));
    }
  }

  /** What the server signs in a mode the agent trusts, the agent accepts for whatever command reads that text. */
  lemma ReaderIsAccepted(cr: Crypto, s: Signer, t: Trust, c: Command, sig: seq<byte>, directive: seq<byte>, d: Command)
    requires SoundEncodings(cr) && Matches(cr, s, t)
    requires cr.utf8(directive) == Some(Sign(cr, s, c, sig))
    requires s.publicKey.Some? ==> VerifyWithKey(cr, s.publicKey.value, Signed(c), sig)
    requires Canonical(d) == Signed(c)
    ensures Verify(cr, t, d, directive)
  {
    var hmac := cr.hmacHex(s.key, Signed(c));
    if s.publicKey.None? {
      NoPrefix(hmac, ENVELOPE_V1);
    } else if s.certificate.Some? {
      EnvelopeSplits(ENVELOPE_V2, hmac, cr.encode64(sig), cr.encode64(s.certificate.value));
    } else {
      EnvelopeSplits(ENVELOPE_V1, hmac, cr.encode64(sig), cr.encode64(s.publicKey.value));
    }
  }

  /** With a collision-free keyed hash, for no other. */
  lemma ReadersAreAccepted(cr: Crypto, s: Signer, t: Trust, c: Command, sig: seq<byte>, directive: seq<byte>)
    requires SoundEncodings(cr) && Matches(cr, s, t)
    requires cr.utf8(directive) == Some(Sign(cr, s, c, sig))
    requires s.publicKey.Some? ==> VerifyWithKey(cr, s.publicKey.value, Signed(c), sig)
    requires forall x, y :: cr.hmacHex(t.key, x) == cr.hmacHex(t.key, y) ==> x == y
    ensures forall d :: Verify(cr, t, d, directive) <==> Canonical(d) == Signed(c)
  {
    SignedTag(cr, s, t, c, sig, directive);
    forall d
      ensures Verify(cr, t, d, directive) <==> Canonical(d) == Signed(c)
    {
      if Verify(cr, t, d, directive) {
        AcceptedTag(cr, t, d, directive);
      }
      if Canonical(d) == Signed(c) {
        ReaderIsAccepted(cr, s, t, c, sig, directive, d);
      }
    }
  }

  /**
   With a collision-free keyed hash, what the server signs in a mode the agent trusts is accepted exactly
   when no checklist entry holds one of the five characters the server escapes.
   */
  lemma SignedIsAcceptedIff(cr: Crypto, s: Signer, t: Trust, cmd: Command, sig: seq<byte>, directive: seq<byte>)
    requires SoundEncodings(cr) && Matches(cr, s, t)
    requires cr.utf8(directive) == Some(Sign(cr, s, cmd, sig))
    requires s.publicKey.Some? ==> VerifyWithKey(cr, s.publicKey.value, Signed(cmd), sig)
    requires forall x, y :: cr.hmacHex(t.key, x) == cr.hmacHex(t.key, y) ==> x == y
    ensures Verify(cr, t, cmd, directive) <==> AllPlain(cmd.checklist)
  {
    ReadersAreAccepted(cr, s, t, cmd, sig, directive);
    CanonicalsAgreeIff(cmd, Items(cmd.checklist));
  }

  /** And accepted for some other command, whether or not for its own, exactly in these cases. */
  lemma SignedForAnotherIff(cr: Crypto, s: Signer, t: Trust, cmd: Command, sig: seq<byte>, directive: seq<byte>)
    requires SoundEncodings(cr) && Matches(cr, s, t)
    requires cr.utf8(directive) == Some(Sign(cr, s, cmd, sig))
    requires s.publicKey.Some? ==> VerifyWithKey(cr, s.publicKey.value, Signed(cmd), sig)
    requires forall x, y :: cr.hmacHex(t.key, x) == cr.hmacHex(t.key, y) ==> x == y
    ensures (exists d :: d != cmd && Verify(cr, t, d, directive)) <==>
            if LeadingLineFree(cmd) then Ambiguous(cmd.patch) else AllPlain(cmd.checklist) || Readable(Signed(cmd))
  {
    ReadersAreAccepted(cr, s, t, cmd, sig, directive);
    SignedMistakenIff(cmd);
  }

  lemma NoPrefix(s: string, version: string)
    requires LineFree(s)
    ensures StripPrefix(s, version + "\n").None?
  {
    var prefix := version + "\n";
    assert prefix[|version|] == '\n';
    if |s| > |version| {
      assert s[|version|] != prefix[|version|];
    }
  }
}
