/**
The policy fold.  Every algorithm of every component, and every network observation, drafts findings; a
draft is pushed unless a finding of the same rule, asset and algorithm is there already.
*/
module Policy {
  import opened Text

  const KEM := 1
  const KEY_EXCHANGE := 2
  const SIGNATURE := 3
  const CERT_PUBLIC_KEY := 4
  const CERT_SIGNATURE := 5
  const SYMMETRIC := 6

  const MEDIUM := 3
  const HIGH := 4
  const CRITICAL := 5

  datatype Algorithm = Algorithm(name: string, family: string, role: int, keyBits: int)

  datatype Component = Component(bomRef: string, algorithms: seq<Algorithm>)

  datatype Observation = Observation(endpoint: string, protocol: string, cleartext: bool, tlsVersion: string,
                                     cipherSuite: string, namedGroup: string, signatureAlgorithm: string,
                                     pqcHybrid: bool)

  datatype Evidence = Evidence(id: string, target: string)

  /** The rules, JANUS-PQC-001 and so on; a payload may come with findings of other rules. */
  datatype Rule =
    | Pqc001 | Pqc002 | Pqc004 | Pqc005 | Pqc006 | Pqc007 | Classical003 | Classical008 | Classical009 | Net001 | Net002
    | OtherRule(id: string)

  /** A drafted finding has its rule's title; the texts are the source's and are not needed here. */
  datatype Title = TitleOf(rule: Rule) | OtherTitle(text: string)

  datatype Profile =
    | CertificateSignatureModernization | HybridTls13KeyExchange | HashModernization | SymmetricMarginUpgrade
    | RegistryHardening | MemoryKeyLeak | EnableTls13Hybrid | EnableTls13First | X25519Mlkem768
    | OtherProfile(name: string)

  /** A description is kept as its kind and the values that are put into its text. */
  datatype Description =
    | RsaBelowThreshold(bomRef: string, keyBits: int)
    | SignatureUse(bomRef: string, name: string, role: string)
    | KeyExchangeUse(bomRef: string, name: string, role: string)
    | HashReference(bomRef: string, name: string)
    | Aes128Reference(bomRef: string)
    | WeakPolicy(name: string)
    | PrivateKey(bomRef: string)
    | Cleartext(endpoint: string, protocol: string)
    | VersionSeen(endpoint: string, version: string)
    | ClassicalGroup(endpoint: string, group: string, cipher: string)
    | ClassicalSignature(endpoint: string, name: string)
    | OtherText(text: string)

  datatype Finding = Finding(severity: int, title: Title, description: Description, assetRef: string, algorithm: string,
                             rule: Rule, evidenceIds: seq<string>, profile: Profile)

  // ---------------------------------------------------------------------------
  // Evidence
  // ---------------------------------------------------------------------------

  function Backslashed(s: string): (r: string)
    ensures |r| == |s| && '/' !in r
    ensures forall i :: 0 <= i < |s| && s[i] != '/' ==> r[i] == s[i]
    ensures forall i :: 0 <= i < |s| && s[i] == '/' ==> r[i] == '\\'
  {
    seq(|s|, i requires 0 <= i < |s| => if s[i] == '/' then '\\' else s[i])
  }

  /** The part after the first colon, if there is one. */
  function CleanRef(assetRef: string): string {
    var k := FirstOf(assetRef, ':');
    if k < |assetRef| then assetRef[k + 1..] else assetRef
  }

  predicate Concerns(ev: Evidence, assetRef: string) {
    var clean, target := Backslashed(CleanRef(assetRef)), Backslashed(ev.target);
    || ev.target == assetRef
    || target == clean
    || (|clean| > 4 && Contains(target, clean))
    || (|target| > 4 && Contains(clean, target))
  }

  /** The ids of the evidence that meets a condition. */
  function IdsWhere(p: Evidence -> bool, evidence: seq<Evidence>): seq<string> {
    if evidence == [] then [] else
      var last := evidence[|evidence| - 1];
      IdsWhere(p, evidence[..|evidence| - 1]) + if p(last) then [last.id] else []
  }

  function ConcernsAsset(assetRef: string): Evidence -> bool {
    (ev: Evidence) => Concerns(ev, assetRef)
  }

  function EvidenceIds(evidence: seq<Evidence>, assetRef: string): seq<string> {
    IdsWhere(ConcernsAsset(assetRef), evidence)
  }

  /** `at` are the positions of the evidence that meets the condition, in order. */
  ghost predicate Positions(p: Evidence -> bool, evidence: seq<Evidence>, at: seq<nat>) {
    && (forall k :: 0 <= k < |at| ==> at[k] < |evidence| && p(evidence[at[k]]))
    && (forall k, l :: 0 <= k < l < |at| ==> at[k] < at[l])
    && (forall i: nat :: i < |evidence| && p(evidence[i]) ==> i in at)
  }

  lemma PositionsOn(p: Evidence -> bool, evidence: seq<Evidence>, at: seq<nat>, ev: Evidence)
    requires Positions(p, evidence, at)
    ensures Positions(p, evidence + [ev], at + if p(ev) then [|evidence|] else [])
  {
    var more, at' := evidence + [ev], at + if p(ev) then [|evidence|] else [];
    forall i: nat | i < |more| && p(more[i])
      ensures i in at'
    {
      assert i < |evidence| ==> i in at;
      assert i == |evidence| ==> at'[|at|] == i;
    }
  }

  lemma {:induction false} IdsAt(p: Evidence -> bool, evidence: seq<Evidence>) returns (at: seq<nat>)
    ensures Positions(p, evidence, at) && |IdsWhere(p, evidence)| == |at|
    ensures forall k :: 0 <= k < |at| ==> IdsWhere(p, evidence)[k] == evidence[at[k]].id
    decreases |evidence|
  {
    if evidence == [] {
      at := [];
    } else {
      var n := |evidence| - 1;
      at := IdsAt(p, evidence[..n]);
      PositionsOn(p, evidence[..n], at, evidence[n]);
      at := at + if p(evidence[n]) then [n] else [];
      assert evidence == evidence[..n] + [evidence[n]];
    }
  }

  /** The ids found are those of all the evidence that concerns the asset, each where it stands, in order. */
  lemma EvidenceIdsSelect(evidence: seq<Evidence>, assetRef: string) returns (at: seq<nat>)
    ensures Positions(ConcernsAsset(assetRef), evidence, at) && |EvidenceIds(evidence, assetRef)| == |at|
    ensures forall k :: 0 <= k < |at| ==> EvidenceIds(evidence, assetRef)[k] == evidence[at[k]].id
  {
    at := IdsAt(ConcernsAsset(assetRef), evidence);
  }

  method FindEvidenceIds(evidence: seq<Evidence>, assetRef: string) returns (ids: seq<string>)
    ensures ids == EvidenceIds(evidence, assetRef)
  {
    ids := [];
    for i := 0 to |evidence|
      invariant ids == EvidenceIds(evidence[..i], assetRef)
    {
      assert evidence[..i + 1][..i] == evidence[..i];
      if Concerns(evidence[i], assetRef) {
        ids := ids + [evidence[i].id];
      }
    }
    assert evidence[..|evidence|] == evidence;
  }

  // ---------------------------------------------------------------------------
  // Drafts
  // ---------------------------------------------------------------------------

  predicate ContainsAny(s: string, needles: seq<string>) {
    exists i :: 0 <= i < |needles| && Contains(s, needles[i])
  }

  predicate SignatureRole(role: int) { role == CERT_SIGNATURE || role == SIGNATURE || role == CERT_PUBLIC_KEY }

  predicate PublicKeyRole(role: int) { role == KEM || role == KEY_EXCHANGE || SignatureRole(role) }

  function RoleName(role: int): string {
    if role == KEM then "KEM"
    else if role == KEY_EXCHANGE then "key exchange"
    else if role == SIGNATURE then "signature"
    else if role == CERT_PUBLIC_KEY then "certificate public key"
    else if role == CERT_SIGNATURE then "certificate signature"
    else "cryptographic operation"
  }

  predicate ClassicalPublicKey(a: Algorithm) {
    || ContainsAny(Upper(a.name), ["RSA", "ECDSA", "ECDH", "ECDHE", "DH", "DSA"])
    || ContainsAny(Upper(a.family), ["RSA", "ECC", "ECDH", "DIFFIE", "DSA"])
  }

  predicate WeakProtocol(s: string) { ContainsAny(s, ["TLS 1.0", "TLS 1.1", "RC4", "3DES"]) }

  /** The severity and profile of each rule. */
  function SeverityOf(rule: Rule): int {
    match rule
    case Pqc002 => CRITICAL
    case Pqc005 => CRITICAL
    case Classical008 => CRITICAL
    case Net001 => CRITICAL
    case Pqc004 => MEDIUM
    case _ => HIGH
  }

  function ProfileOf(rule: Rule): Profile {
    match rule
    case Pqc001 => CertificateSignatureModernization
    case Pqc002 => CertificateSignatureModernization
    case Pqc004 => SymmetricMarginUpgrade
    case Pqc005 => X25519Mlkem768
    case Pqc006 => CertificateSignatureModernization
    case Pqc007 => HybridTls13KeyExchange
    case Classical003 => HashModernization
    case Classical008 => MemoryKeyLeak
    case Classical009 => RegistryHardening
    case Net001 => EnableTls13Hybrid
    case Net002 => EnableTls13First
    case OtherRule(id) => OtherProfile(id)
  }

  function Draft(evidence: seq<Evidence>, rule: Rule, assetRef: string, algorithm: string, d: Description): Finding {
    Finding(SeverityOf(rule), TitleOf(rule), d, assetRef, algorithm, rule, EvidenceIds(evidence, assetRef),
            ProfileOf(rule))
  }

  function PublicKeyDraft(evidence: seq<Evidence>, bomRef: string, a: Algorithm): Finding {
    if SignatureRole(a.role) then
      if Contains(Upper(a.name), "RSA") && 0 < a.keyBits < 3072 then
        Draft(evidence, Pqc002, bomRef, a.name, RsaBelowThreshold(bomRef, a.keyBits))
      else
        Draft(evidence, Pqc001, bomRef, a.name, SignatureUse(bomRef, a.name, RoleName(a.role)))
    else
      Draft(evidence, Pqc007, bomRef, a.name, KeyExchangeUse(bomRef, a.name, RoleName(a.role)))
  }

  function HashDrafts(evidence: seq<Evidence>, bomRef: string, a: Algorithm): seq<Finding> {
    if ContainsAny(Upper(a.name), ["MD5", "SHA1", "SHA-1"]) then
      [Draft(evidence, Classical003, bomRef, a.name, HashReference(bomRef, a.name))]
    else []
  }

  function SymmetricDrafts(evidence: seq<Evidence>, bomRef: string, a: Algorithm): seq<Finding> {
    if Contains(Upper(a.name), "AES-128") && a.role == SYMMETRIC then
      [Draft(evidence, Pqc004, bomRef, a.name, Aes128Reference(bomRef))]
    else []
  }

  function ProtocolDrafts(evidence: seq<Evidence>, bomRef: string, a: Algorithm): seq<Finding> {
    if WeakProtocol(Upper(a.name)) || WeakProtocol(Upper(a.family)) then
      [Draft(evidence, Classical009, bomRef, a.name, WeakPolicy(a.name))]
    else []
  }

  function KeyDrafts(evidence: seq<Evidence>, bomRef: string, a: Algorithm): seq<Finding> {
    if a.name == "Unencrypted-Private-Key" then
      [Draft(evidence, Classical008, bomRef, a.name, PrivateKey(bomRef))]
    else []
  }

  /** A public-key finding ends the assessment of an algorithm; the other rules are independent. */
  function AlgorithmDrafts(evidence: seq<Evidence>, bomRef: string, a: Algorithm): seq<Finding> {
    if PublicKeyRole(a.role) && ClassicalPublicKey(a) then [PublicKeyDraft(evidence, bomRef, a)]
    else HashDrafts(evidence, bomRef, a) + SymmetricDrafts(evidence, bomRef, a) + ProtocolDrafts(evidence, bomRef, a)
         + KeyDrafts(evidence, bomRef, a)
  }

  predicate OldVersion(version: string) {
    "TLS1.0" <= version || "TLS1.1" <= version || "TLS1.2" <= version || version == ""
  }

  function VersionDrafts(evidence: seq<Evidence>, o: Observation): seq<Finding> {
    if OldVersion(Upper(o.tlsVersion)) then
      [Draft(evidence, Net002, o.endpoint, o.cipherSuite, VersionSeen(o.endpoint, o.tlsVersion))]
    else []
  }

  function GroupDrafts(evidence: seq<Evidence>, o: Observation): seq<Finding> {
    if !o.pqcHybrid && !ContainsAny(Upper(o.namedGroup), ["MLKEM", "ML-KEM"]) then
      [Draft(evidence, Pqc005, o.endpoint, o.namedGroup, ClassicalGroup(o.endpoint, o.namedGroup, o.cipherSuite))]
    else []
  }

  function SignatureDrafts(evidence: seq<Evidence>, o: Observation): seq<Finding> {
    if ContainsAny(Upper(o.signatureAlgorithm), ["RSA", "ECDSA"]) then
      [Draft(evidence, Pqc006, o.endpoint, o.signatureAlgorithm, ClassicalSignature(o.endpoint, o.signatureAlgorithm))]
    else []
  }

  function NetworkDrafts(evidence: seq<Evidence>, o: Observation): seq<Finding> {
    if o.cleartext then
      [Draft(evidence, Net001, o.endpoint, "cleartext", Cleartext(o.endpoint, o.protocol))]
    else VersionDrafts(evidence, o) + GroupDrafts(evidence, o) + SignatureDrafts(evidence, o)
  }

  /** The drafts of each item, one after the other. */
  function FlatMap<T>(f: T -> seq<Finding>, xs: seq<T>): seq<Finding> {
    if xs == [] then [] else FlatMap(f, xs[..|xs| - 1]) + f(xs[|xs| - 1])
  }

  lemma {:induction false} InFlatMap<T>(f: T -> seq<Finding>, xs: seq<T>, d: Finding)
    ensures d in FlatMap(f, xs) <==> exists x :: x in xs && d in f(x)
    decreases |xs|
  {
    if xs != [] {
      var n := |xs| - 1;
      InFlatMap(f, xs[..n], d);
      assert xs == xs[..n] + [xs[n]];
    }
  }

  function OfAlgorithm(evidence: seq<Evidence>, bomRef: string): Algorithm -> seq<Finding> {
    (a: Algorithm) => AlgorithmDrafts(evidence, bomRef, a)
  }

  function OfComponent(evidence: seq<Evidence>): Component -> seq<Finding> {
    (c: Component) => FlatMap(OfAlgorithm(evidence, c.bomRef), c.algorithms)
  }

  function OfObservation(evidence: seq<Evidence>): Observation -> seq<Finding> {
    (o: Observation) => NetworkDrafts(evidence, o)
  }

  function ComponentDrafts(evidence: seq<Evidence>, bomRef: string, algorithms: seq<Algorithm>): seq<Finding> {
    FlatMap(OfAlgorithm(evidence, bomRef), algorithms)
  }

  function InventoryDrafts(evidence: seq<Evidence>, components: seq<Component>): seq<Finding> {
    FlatMap(OfComponent(evidence), components)
  }

  function ObservedDrafts(evidence: seq<Evidence>, observations: seq<Observation>): seq<Finding> {
    FlatMap(OfObservation(evidence), observations)
  }

  function Drafts(evidence: seq<Evidence>, components: seq<Component>, observations: seq<Observation>): seq<Finding> {
    InventoryDrafts(evidence, components) + ObservedDrafts(evidence, observations)
  }

  // ---------------------------------------------------------------------------
  // Pushing
  // ---------------------------------------------------------------------------

  datatype Key = Key(rule: Rule, assetRef: string, algorithm: string)

  function KeyOf(f: Finding): Key { Key(f.rule, f.assetRef, f.algorithm) }

  predicate HasKey(findings: seq<Finding>, k: Key) { exists i :: 0 <= i < |findings| && KeyOf(findings[i]) == k }

  function Push(findings: seq<Finding>, d: Finding): seq<Finding> {
    if HasKey(findings, KeyOf(d)) then findings else findings + [d]
  }

  function PushAll(findings: seq<Finding>, ds: seq<Finding>): seq<Finding> {
    if ds == [] then findings else Push(PushAll(findings, ds[..|ds| - 1]), ds[|ds| - 1])
  }

  lemma {:induction false} PushConcat(findings: seq<Finding>, ds: seq<Finding>, es: seq<Finding>)
    ensures PushAll(findings, ds + es) == PushAll(PushAll(findings, ds), es)
    decreases |es|
  {
    if es == [] {
      assert ds + es == ds;
    } else {
      var n := |es| - 1;
      PushConcat(findings, ds, es[..n]);
      assert (ds + es)[..|ds + es| - 1] == ds + es[..n];
    }
  }

  lemma PushOne(findings: seq<Finding>, d: Finding)
    ensures PushAll(findings, [d]) == Push(findings, d)
  {
    assert [d][..0] == [];
    assert PushAll(findings, [d][..0]) == findings;
  }

  /** The payload under assessment: its findings grow. */
  class Assessment {
    const components: seq<Component>
    const observations: seq<Observation>
    const evidence: seq<Evidence>
    var findings: seq<Finding>

    constructor (components: seq<Component>, observations: seq<Observation>, evidence: seq<Evidence>,
                 findings: seq<Finding>)
      ensures this.components == components && this.observations == observations
      ensures this.evidence == evidence && this.findings == findings
    {
      this.components, this.observations, this.evidence, this.findings := components, observations, evidence, findings;
    }

    method PushFinding(rule: Rule, assetRef: string, algorithm: string, d: Description)
      modifies this`findings
      ensures findings == Push(old(findings), Draft(evidence, rule, assetRef, algorithm, d))
      ensures findings == PushAll(old(findings), [Draft(evidence, rule, assetRef, algorithm, d)])
    {
      var ids := FindEvidenceIds(evidence, assetRef);
      PushOne(findings, Draft(evidence, rule, assetRef, algorithm, d));
      var i := 0;
      while i < |findings|
        invariant i <= |findings|
        invariant forall j :: 0 <= j < i ==> KeyOf(findings[j]) != Key(rule, assetRef, algorithm)
      {
        if findings[i].rule == rule && findings[i].assetRef == assetRef && findings[i].algorithm == algorithm {
          return;
        }
        i := i + 1;
      }
      findings := findings + [Finding(SeverityOf(rule), TitleOf(rule), d, assetRef, algorithm, rule, ids,
              ProfileOf(rule))];
    }

    method AssessAlgorithm(bomRef: string, a: Algorithm)
      modifies this`findings
      ensures findings == PushAll(old(findings), AlgorithmDrafts(evidence, bomRef, a))
    {
      if PublicKeyRole(a.role) && ClassicalPublicKey(a) {
        var d := PublicKeyDraft(evidence, bomRef, a);
        PushFinding(d.rule, bomRef, a.name, d.description);
        return;
      }
      ghost var f0 := findings;
      var name, family := Upper(a.name), Upper(a.family);
      if ContainsAny(name, ["MD5", "SHA1", "SHA-1"]) {
        PushFinding(Classical003, bomRef, a.name, HashReference(bomRef, a.name));
      }
      assert findings == PushAll(f0, HashDrafts(evidence, bomRef, a));
      ghost var f1 := findings;
      if Contains(name, "AES-128") && a.role == SYMMETRIC {
        PushFinding(Pqc004, bomRef, a.name, Aes128Reference(bomRef));
      }
      assert findings == PushAll(f1, SymmetricDrafts(evidence, bomRef, a));
      ghost var f2 := findings;
      if WeakProtocol(name) || WeakProtocol(family) {
        PushFinding(Classical009, bomRef, a.name, WeakPolicy(a.name));
      }
      assert findings == PushAll(f2, ProtocolDrafts(evidence, bomRef, a));
      ghost var f3 := findings;
      if a.name == "Unencrypted-Private-Key" {
        PushFinding(Classical008, bomRef, a.name, PrivateKey(bomRef));
      }
      assert findings == PushAll(f3, KeyDrafts(evidence, bomRef, a));
      PushFour(f0, HashDrafts(evidence, bomRef, a), SymmetricDrafts(evidence, bomRef, a),
               ProtocolDrafts(evidence, bomRef, a), KeyDrafts(evidence, bomRef, a));
    }

    method AssessNetwork(o: Observation)
      modifies this`findings
      ensures findings == PushAll(old(findings), NetworkDrafts(evidence, o))
    {
      if o.cleartext {
        PushFinding(Net001, o.endpoint, "cleartext", Cleartext(o.endpoint, o.protocol));
        return;
      }
      ghost var f0 := findings;
      if OldVersion(Upper(o.tlsVersion)) {
        PushFinding(Net002, o.endpoint, o.cipherSuite, VersionSeen(o.endpoint, o.tlsVersion));
      }
      assert findings == PushAll(f0, VersionDrafts(evidence, o));
      ghost var f1 := findings;
      if !o.pqcHybrid && !ContainsAny(Upper(o.namedGroup), ["MLKEM", "ML-KEM"]) {
        PushFinding(Pqc005, o.endpoint, o.namedGroup, ClassicalGroup(o.endpoint, o.namedGroup, o.cipherSuite));
      }
      assert findings == PushAll(f1, GroupDrafts(evidence, o));
      ghost var f2 := findings;
      if ContainsAny(Upper(o.signatureAlgorithm), ["RSA", "ECDSA"]) {
        PushFinding(Pqc006, o.endpoint, o.signatureAlgorithm, ClassicalSignature(o.endpoint, o.signatureAlgorithm));
      }
      assert findings == PushAll(f2, SignatureDrafts(evidence, o));
      PushConcat(f0, VersionDrafts(evidence, o), GroupDrafts(evidence, o));
      PushConcat(f0, VersionDrafts(evidence, o) + GroupDrafts(evidence, o), SignatureDrafts(evidence, o));
    }

    method AssessComponent(c: Component)
      modifies this`findings
      ensures findings == PushAll(old(findings), ComponentDrafts(evidence, c.bomRef, c.algorithms))
    {
      ghost var f0 := findings;
      for i := 0 to |c.algorithms|
        invariant findings == PushAll(f0, ComponentDrafts(evidence, c.bomRef, c.algorithms[..i]))
      {
        FlatStep(f0, OfAlgorithm(evidence, c.bomRef), c.algorithms, i);
        AssessAlgorithm(c.bomRef, c.algorithms[i]);
      }
      assert c.algorithms[..|c.algorithms|] == c.algorithms;
    }

    /** The whole assessment pushes every draft, components first, in order. */
    method Assess()
      modifies this`findings
      ensures findings == PushAll(old(findings), Drafts(evidence, components, observations))
    {
      ghost var f0 := findings;
      for i := 0 to |components|
        invariant findings == PushAll(f0, InventoryDrafts(evidence, components[..i]))
      {
        FlatStep(f0, OfComponent(evidence), components, i);
        AssessComponent(components[i]);
      }
      assert components[..|components|] == components;
      ghost var f1 := findings;
      for i := 0 to |observations|
        invariant findings == PushAll(f1, ObservedDrafts(evidence, observations[..i]))
      {
        FlatStep(f1, OfObservation(evidence), observations, i);
        AssessNetwork(observations[i]);
      }
      assert observations[..|observations|] == observations;
      PushConcat(f0, InventoryDrafts(evidence, components), ObservedDrafts(evidence, observations));
    }
  }

  lemma FlatStep<T>(findings: seq<Finding>, f: T -> seq<Finding>, xs: seq<T>, i: nat)
    requires i < |xs|
    ensures PushAll(findings, FlatMap(f, xs[..i + 1])) == PushAll(PushAll(findings, FlatMap(f, xs[..i])), f(xs[i]))
  {
    assert xs[..i + 1][..i] == xs[..i];
    PushConcat(findings, FlatMap(f, xs[..i]), f(xs[i]));
  }

  lemma PushFour(f: seq<Finding>, a: seq<Finding>, b: seq<Finding>, c: seq<Finding>, d: seq<Finding>)
    ensures PushAll(PushAll(PushAll(PushAll(f, a), b), c), d) == PushAll(f, a + b + c + d)
  {
    PushConcat(f, a, b);
    PushConcat(f, a + b, c);
    PushConcat(f, a + b + c, d);
  }

  // ---------------------------------------------------------------------------
  // What the fold keeps
  // ---------------------------------------------------------------------------

  ghost predicate Distinct(findings: seq<Finding>) {
    forall i, j :: 0 <= i < j < |findings| ==> KeyOf(findings[i]) != KeyOf(findings[j])
  }

  /** The findings that were there stay in front; what is added is drafted, has no key twice and none that was there. */
  ghost predicate Extends(findings: seq<Finding>, ds: seq<Finding>, out: seq<Finding>) {
    && |findings| <= |out| && out[..|findings|] == findings
    && (forall i :: |findings| <= i < |out| ==> out[i] in ds && !HasKey(out[..i], KeyOf(out[i])))
    && (forall d :: d in ds ==> HasKey(out, KeyOf(d)))
  }

  lemma {:induction false} PushExtends(findings: seq<Finding>, ds: seq<Finding>)
    ensures Extends(findings, ds, PushAll(findings, ds))
    decreases |ds|
  {
    if ds == [] {
      assert findings[..|findings|] == findings;
    } else {
      var n := |ds| - 1;
      PushExtends(findings, ds[..n]);
      PushOneMore(findings, ds[..n], PushAll(findings, ds[..n]), ds[n]);
      assert ds == ds[..n] + [ds[n]];
    }
  }

  lemma PushOneMore(findings: seq<Finding>, ds: seq<Finding>, out: seq<Finding>, d: Finding)
    requires Extends(findings, ds, out)
    ensures Extends(findings, ds + [d], Push(out, d))
  {
    var out' := Push(out, d);
    assert out'[..|out|] == out;
    forall i | |findings| <= i < |out'|
      ensures out'[i] in ds + [d] && !HasKey(out'[..i], KeyOf(out'[i]))
    {
      assert i < |out| ==> out'[i] == out[i] && out'[..i] == out[..i];
    }
    forall e | e in ds + [d]
      ensures HasKey(out', KeyOf(e))
    {
      KeptKey(out, d, KeyOf(e));
    }
  }

  lemma KeptKey(out: seq<Finding>, d: Finding, k: Key)
    ensures HasKey(Push(out, d), k) <==> HasKey(out, k) || k == KeyOf(d)
  {
    var out' := Push(out, d);
    assert forall i :: 0 <= i < |out| ==> out'[i] == out[i];
    if HasKey(out, k) {
      var i :| 0 <= i < |out| && KeyOf(out[i]) == k;
      assert KeyOf(out'[i]) == k;
    } else if k == KeyOf(d) {
      assert KeyOf(out'[|out|]) == k;
    }
  }

  lemma {:induction false} NothingToPush(findings: seq<Finding>, ds: seq<Finding>)
    requires forall d :: d in ds ==> HasKey(findings, KeyOf(d))
    ensures PushAll(findings, ds) == findings
    decreases |ds|
  {
    if ds != [] {
      NothingToPush(findings, ds[..|ds| - 1]);
    }
  }

  /** A second assessment of the same payload appends nothing. */
  lemma AssessIdempotent(evidence: seq<Evidence>, components: seq<Component>, observations: seq<Observation>,
                         findings: seq<Finding>)
    ensures var ds := Drafts(evidence, components, observations);
            PushAll(PushAll(findings, ds), ds) == PushAll(findings, ds)
  {
    var ds := Drafts(evidence, components, observations);
    PushExtends(findings, ds);
    NothingToPush(PushAll(findings, ds), ds);
  }

  /** Assessing adds no duplicate. */
  lemma StaysDistinct(findings: seq<Finding>, ds: seq<Finding>)
    requires Distinct(findings)
    ensures Distinct(PushAll(findings, ds))
  {
    var out := PushAll(findings, ds);
    PushExtends(findings, ds);
    forall i, j | 0 <= i < j < |out|
      ensures KeyOf(out[i]) != KeyOf(out[j])
    {
      if j >= |findings| {
        assert out[..j][i] == out[i];
      } else {
        assert findings[i] == out[i] && findings[j] == out[j];
      }
    }
  }

  // ---------------------------------------------------------------------------
  // What does not depend on the order
  // ---------------------------------------------------------------------------

  /** A finding but for its description: rule, asset, algorithm, severity, title, profile, evidence. */
  function Core(f: Finding): Finding { f.(description := OtherText("")) }

  ghost predicate IsCore(findings: seq<Finding>, x: Finding) { exists f :: f in findings && Core(f) == x }

  /** Drafts of one key differ in their description only. */
  ghost predicate KeyFixesCore(ds: seq<Finding>) {
    forall d, e :: d in ds && e in ds && KeyOf(d) == KeyOf(e) ==> Core(d) == Core(e)
  }

  /** The cores after the fold: those that were there, and those of the drafts whose key was not. */
  lemma CoresOfPush(findings: seq<Finding>, ds: seq<Finding>, x: Finding)
    requires KeyFixesCore(ds)
    ensures IsCore(PushAll(findings, ds), x)
            <==> IsCore(findings, x) || exists d :: d in ds && !HasKey(findings, KeyOf(d)) && Core(d) == x
  {
    var out := PushAll(findings, ds);
    PushExtends(findings, ds);
    if IsCore(out, x) {
      var i :| 0 <= i < |out| && Core(out[i]) == x;
      if i < |findings| {
        assert findings[i] == out[i];
      } else {
        PrefixHasFewerKeys(out, |findings|, i, KeyOf(out[i]));
      }
    }
    if IsCore(findings, x) {
      var i :| 0 <= i < |findings| && Core(findings[i]) == x;
      assert out[i] == findings[i];
    }
    if d :| d in ds && !HasKey(findings, KeyOf(d)) && Core(d) == x {
      assert HasKey(out, KeyOf(d));
      forall j | 0 <= j < |findings|
        ensures KeyOf(out[j]) != KeyOf(d)
      {
        assert KeyOf(findings[j]) != KeyOf(d) && out[..|findings|][j] == out[j];
      }
      var i :| 0 <= i < |out| && KeyOf(out[i]) == KeyOf(d);
      assert out[i] in ds && Core(out[i]) == x;
    }
  }

  lemma PrefixHasFewerKeys(out: seq<Finding>, n: nat, i: nat, k: Key)
    requires n <= i <= |out| && !HasKey(out[..i], k)
    ensures !HasKey(out[..n], k)
  {
    forall j | 0 <= j < n
      ensures KeyOf(out[j]) != k
    {
      assert out[..i][j] == out[j];
    }
  }

  /** A finding some draft could be. */
  predicate Drafted(evidence: seq<Evidence>, d: Finding) {
    d == Draft(evidence, d.rule, d.assetRef, d.algorithm, d.description)
  }

  ghost predicate Uses(components: seq<Component>, bomRef: string, a: Algorithm) {
    exists i :: 0 <= i < |components| && components[i].bomRef == bomRef && a in components[i].algorithms
  }

  /** Nothing, or one draft of that rule. */
  ghost predicate AtMostOne(evidence: seq<Evidence>, ds: seq<Finding>, rule: Rule) {
    |ds| <= 1 && forall i :: 0 <= i < |ds| ==> ds[i].rule == rule && Drafted(evidence, ds[i])
  }

  lemma OneDraftEach(evidence: seq<Evidence>, bomRef: string, a: Algorithm)
    ensures AtMostOne(evidence, HashDrafts(evidence, bomRef, a), Classical003)
    ensures AtMostOne(evidence, SymmetricDrafts(evidence, bomRef, a), Pqc004)
    ensures AtMostOne(evidence, ProtocolDrafts(evidence, bomRef, a), Classical009)
    ensures AtMostOne(evidence, KeyDrafts(evidence, bomRef, a), Classical008)
  {
  }

  lemma AlgorithmDrafted(evidence: seq<Evidence>, bomRef: string, a: Algorithm)
    ensures forall d :: d in AlgorithmDrafts(evidence, bomRef, a) ==> Drafted(evidence, d)
  {
    OneDraftEach(evidence, bomRef, a);
  }

  lemma NetworkDrafted(evidence: seq<Evidence>, o: Observation)
    ensures forall d :: d in NetworkDrafts(evidence, o) ==> Drafted(evidence, d)
  {
  }

  lemma InInventoryDrafts(evidence: seq<Evidence>, components: seq<Component>, d: Finding)
    ensures d in InventoryDrafts(evidence, components)
            <==> exists bomRef, a :: Uses(components, bomRef, a) && d in OfAlgorithm(evidence, bomRef)(a)
  {
    InFlatMap(OfComponent(evidence), components, d);
    forall c | c in components
      ensures d in OfComponent(evidence)(c) <==>
              exists a :: a in c.algorithms && d in OfAlgorithm(evidence, c.bomRef)(a)
    {
      InFlatMap(OfAlgorithm(evidence, c.bomRef), c.algorithms, d);
    }
    if bomRef, a :| Uses(components, bomRef, a) && d in OfAlgorithm(evidence, bomRef)(a) {
      var i :| 0 <= i < |components| && components[i].bomRef == bomRef && a in components[i].algorithms;
      assert d in OfComponent(evidence)(components[i]);
    }
  }

  lemma InObservedDrafts(evidence: seq<Evidence>, observations: seq<Observation>, d: Finding)
    ensures d in ObservedDrafts(evidence, observations) <==>
            exists o :: o in observations && d in OfObservation(evidence)(o)
  {
    InFlatMap(OfObservation(evidence), observations, d);
  }

  lemma DraftsFixCore(evidence: seq<Evidence>, components: seq<Component>, observations: seq<Observation>)
    ensures KeyFixesCore(Drafts(evidence, components, observations))
  {
    var ds := Drafts(evidence, components, observations);
    forall d | d in ds
      ensures Drafted(evidence, d)
    {
      InInventoryDrafts(evidence, components, d);
      InObservedDrafts(evidence, observations, d);
      if d in InventoryDrafts(evidence, components) {
        var bomRef, a :| Uses(components, bomRef, a) && d in OfAlgorithm(evidence, bomRef)(a);
        AlgorithmDrafted(evidence, bomRef, a);
      } else {
        var o :| o in observations && d in OfObservation(evidence)(o);
        NetworkDrafted(evidence, o);
      }
    }
  }

  /** The same components, algorithms and observations, in any order, grouped or repeated in any way. */
  ghost predicate SameInventory(cs: seq<Component>, os: seq<Observation>, cs': seq<Component>, os': seq<Observation>) {
    && (forall bomRef, a :: Uses(cs, bomRef, a) <==> Uses(cs', bomRef, a))
    && (forall o :: o in os <==> o in os')
  }

  lemma SameDrafts(evidence: seq<Evidence>, cs: seq<Component>, os: seq<Observation>, cs': seq<Component>,
                   os': seq<Observation>, d: Finding)
    requires SameInventory(cs, os, cs', os')
    ensures d in Drafts(evidence, cs, os) <==> d in Drafts(evidence, cs', os')
  {
    InInventoryDrafts(evidence, cs, d);
    InInventoryDrafts(evidence, cs', d);
    InObservedDrafts(evidence, os, d);
    InObservedDrafts(evidence, os', d);
  }

  /** The order of components, algorithms and observations changes no finding but for its description. */
  lemma OrderKeepsCores(evidence: seq<Evidence>, cs: seq<Component>, os: seq<Observation>, cs': seq<Component>,
                        os': seq<Observation>, findings: seq<Finding>, x: Finding)
    requires SameInventory(cs, os, cs', os')
    ensures IsCore(PushAll(findings, Drafts(evidence, cs, os)), x) <==>
            IsCore(PushAll(findings, Drafts(evidence, cs', os')), x)
  {
    var ds, es := Drafts(evidence, cs, os), Drafts(evidence, cs', os');
    DraftsFixCore(evidence, cs, os);
    DraftsFixCore(evidence, cs', os');
    CoresOfPush(findings, ds, x);
    CoresOfPush(findings, es, x);
    forall d
      ensures d in ds <==> d in es
    {
      SameDrafts(evidence, cs, os, cs', os', d);
    }
  }

  /** The finding of a new key is the first draft of that key. */
  lemma {:induction false} FirstDraftWins(findings: seq<Finding>, ds: seq<Finding>, i: nat)
    requires i < |ds| && !HasKey(findings, KeyOf(ds[i])) && forall j :: 0 <= j < i ==> KeyOf(ds[j]) != KeyOf(ds[i])
    ensures ds[i] in PushAll(findings, ds)
    ensures forall f :: f in PushAll(findings, ds) && KeyOf(f) == KeyOf(ds[i]) ==> f == ds[i]
    decreases |ds|
  {
    var n := |ds| - 1;
    if i < n {
      FirstDraftWins(findings, ds[..n], i);
      PushKeeps(PushAll(findings, ds[..n]), ds[n], ds[i]);
    } else {
      var out := PushAll(findings, ds[..n]);
      PushExtends(findings, ds[..n]);
      forall j | 0 <= j < |out|
        ensures KeyOf(out[j]) != KeyOf(ds[i])
      {
        assert j < |findings| ==> findings[j] == out[j];
      }
      assert (out + [ds[n]])[|out|] == ds[n];
    }
  }

  /** A push keeps what is there, and adds nothing of a key that is there. */
  lemma PushKeeps(out: seq<Finding>, d: Finding, x: Finding)
    requires x in out && forall f :: f in out && KeyOf(f) == KeyOf(x) ==> f == x
    ensures x in Push(out, d) && forall f :: f in Push(out, d) && KeyOf(f) == KeyOf(x) ==> f == x
  {
    var i :| 0 <= i < |out| && out[i] == x;
    assert KeyOf(out[i]) == KeyOf(x);
  }

  ghost predicate SameFindings(fs: seq<Finding>, gs: seq<Finding>) { forall f :: f in fs <==> f in gs }

  /** Drafts of one new key are equal, descriptions included. */
  ghost predicate NewKeysFixDrafts(findings: seq<Finding>, ds: seq<Finding>) {
    forall d, e :: d in ds && e in ds && KeyOf(d) == KeyOf(e) && !HasKey(findings, KeyOf(d)) ==> d == e
  }

  /** Then the findings afterwards are those that were there and all drafts of new keys. */
  lemma FindingsOfPush(findings: seq<Finding>, ds: seq<Finding>, x: Finding)
    requires NewKeysFixDrafts(findings, ds)
    ensures x in PushAll(findings, ds) <==> x in findings || (x in ds && !HasKey(findings, KeyOf(x)))
  {
    var out := PushAll(findings, ds);
    PushExtends(findings, ds);
    forall j | 0 <= j < |findings|
      ensures out[j] == findings[j]
    {
      assert out[..|findings|][j] == out[j];
    }
    forall i | |findings| <= i < |out|
      ensures !HasKey(findings, KeyOf(out[i]))
    {
      PrefixHasFewerKeys(out, |findings|, i, KeyOf(out[i]));
    }
    if x in ds && !HasKey(findings, KeyOf(x)) {
      forall j | 0 <= j < |findings|
        ensures KeyOf(out[j]) != KeyOf(x)
      {
        assert KeyOf(findings[j]) != KeyOf(x);
      }
      assert HasKey(out, KeyOf(x));
      var i :| 0 <= i < |out| && KeyOf(out[i]) == KeyOf(x);
    }
  }

  predicate InventoryRule(rule: Rule) {
    || rule.Pqc001? || rule.Pqc002? || rule.Pqc004? || rule.Pqc007?
    || rule.Classical003? || rule.Classical008? || rule.Classical009?
  }

  lemma DistinctRules(xs: seq<Finding>, ys: seq<Finding>)
    requires Distinct(xs) && Distinct(ys) && forall x, y :: x in xs && y in ys ==> x.rule != y.rule
    ensures Distinct(xs + ys)
  {
  }

  /** The drafts of one algorithm have different rules, and so different keys. */
  lemma AlgorithmKeys(evidence: seq<Evidence>, bomRef: string, a: Algorithm)
    ensures var ds := OfAlgorithm(evidence, bomRef)(a);
            Distinct(ds) && forall d :: d in ds ==> InventoryRule(d.rule)
  {
    if !(PublicKeyRole(a.role) && ClassicalPublicKey(a)) {
      OneDraftEach(evidence, bomRef, a);
      var hash, symmetric := HashDrafts(evidence, bomRef, a), SymmetricDrafts(evidence, bomRef, a);
      var protocol, key := ProtocolDrafts(evidence, bomRef, a), KeyDrafts(evidence, bomRef, a);
      DistinctRules(hash, symmetric);
      DistinctRules(hash + symmetric, protocol);
      DistinctRules(hash + symmetric + protocol, key);
    }
  }

  lemma NetworkKeys(evidence: seq<Evidence>, o: Observation)
    ensures var ds := OfObservation(evidence)(o);
            Distinct(ds) && forall d :: d in ds ==> !InventoryRule(d.rule)
  {
  }

  lemma InventoryRules(evidence: seq<Evidence>, components: seq<Component>, d: Finding)
    requires d in InventoryDrafts(evidence, components)
    ensures InventoryRule(d.rule)
  {
    InInventoryDrafts(evidence, components, d);
    var bomRef, a :| Uses(components, bomRef, a) && d in OfAlgorithm(evidence, bomRef)(a);
    AlgorithmKeys(evidence, bomRef, a);
  }

  lemma {:induction false} FlatMapCons<T>(f: T -> seq<Finding>, x: T, xs: seq<T>)
    ensures FlatMap(f, [x] + xs) == f(x) + FlatMap(f, xs)
    decreases |xs|
  {
    if xs == [] {
      assert [x] + xs == [x];
      FlatMapOne(f, x);
    } else {
      var n := |xs| - 1;
      FlatMapCons(f, x, xs[..n]);
      assert ([x] + xs)[..n + 1] == [x] + xs[..n];
    }
  }

  /** Position i of a list of drafts holds d, and no draft before it has d's key. */
  ghost predicate FirstOfKey(ds: seq<Finding>, i: nat, d: Finding) {
    i < |ds| && ds[i] == d && forall j :: 0 <= j < i ==> KeyOf(ds[j]) != KeyOf(d)
  }

  lemma FirstIn(before: seq<Finding>, here: seq<Finding>, after: seq<Finding>, d: Finding) returns (i: nat)
    requires d in here && Distinct(here) && forall b :: b in before ==> KeyOf(b) != KeyOf(d)
    ensures FirstOfKey(before + (here + after), i, d)
  {
    var k :| 0 <= k < |here| && here[k] == d;
    i := |before| + k;
    var all := before + (here + after);
    forall j | 0 <= j < i
      ensures KeyOf(all[j]) != KeyOf(d)
    {
      if j < |before| {
        assert all[j] == before[j];
      } else {
        assert all[j] == here[j - |before|];
      }
    }
  }

  lemma ComponentDraftsFirst(evidence: seq<Evidence>, cs: seq<Component>, os: seq<Observation>, bomRef: string,
                             a: Algorithm, d: Finding)
    returns (cs': seq<Component>, i: nat)
    requires Uses(cs, bomRef, a) && d in OfAlgorithm(evidence, bomRef)(a)
    ensures SameInventory(cs, os, cs', os) && FirstOfKey(Drafts(evidence, cs', os), i, d)
  {
    var c, f := Component(bomRef, [a]), OfAlgorithm(evidence, bomRef);
    cs' := [c] + cs;
    UsesCons(c, cs);
    AlgorithmKeys(evidence, bomRef, a);
    FlatMapOne(f, a);
    var inventory, observed := InventoryDrafts(evidence, cs), ObservedDrafts(evidence, os);
    i := FirstIn([], f(a), inventory + observed, d);
    FlatMapCons(OfComponent(evidence), c, cs);
    Regroup(f(a), inventory, observed);
  }

  lemma Regroup(x: seq<Finding>, y: seq<Finding>, z: seq<Finding>)
    ensures (x + y) + z == [] + (x + (y + z)) && x + (y + z) == (x + y) + z
  {
  }

  lemma ObservationDraftsFirst(evidence: seq<Evidence>, cs: seq<Component>, os: seq<Observation>, o: Observation,
                               d: Finding)
    returns (os': seq<Observation>, i: nat)
    requires o in os && d in OfObservation(evidence)(o)
    ensures SameInventory(cs, os, cs, os') && FirstOfKey(Drafts(evidence, cs, os'), i, d)
  {
    var f := OfObservation(evidence);
    os' := [o] + os;
    NetworkKeys(evidence, o);
    forall b | b in InventoryDrafts(evidence, cs)
      ensures KeyOf(b) != KeyOf(d)
    {
      InventoryRules(evidence, cs, b);
    }
    i := FirstIn(InventoryDrafts(evidence, cs), f(o), ObservedDrafts(evidence, os), d);
    FlatMapCons(f, o, os);
  }

  /** Any draft of an inventory comes first of its key in some arrangement of that inventory. */
  lemma SomeOrderDraftsFirst(evidence: seq<Evidence>, cs: seq<Component>, os: seq<Observation>, d: Finding)
    returns (cs': seq<Component>, os': seq<Observation>, i: nat)
    requires d in Drafts(evidence, cs, os)
    ensures SameInventory(cs, os, cs', os') && FirstOfKey(Drafts(evidence, cs', os'), i, d)
  {
    cs', os' := cs, os;
    InInventoryDrafts(evidence, cs, d);
    InObservedDrafts(evidence, os, d);
    if d in InventoryDrafts(evidence, cs) {
      var bomRef, a :| Uses(cs, bomRef, a) && d in OfAlgorithm(evidence, bomRef)(a);
      cs', i := ComponentDraftsFirst(evidence, cs, os, bomRef, a, d);
    } else {
      var o :| o in os && d in OfObservation(evidence)(o);
      os', i := ObservationDraftsFirst(evidence, cs, os, o, d);
    }
  }

  lemma UsesCons(c: Component, cs: seq<Component>)
    ensures forall r, a :: Uses([c] + cs, r, a) <==> Uses(cs, r, a) || (r == c.bomRef && a in c.algorithms)
  {
    var all := [c] + cs;
    forall r, a
      ensures Uses(all, r, a) <==> Uses(cs, r, a) || (r == c.bomRef && a in c.algorithms)
    {
      assert all[0] == c;
      if Uses(cs, r, a) {
        var i :| 0 <= i < |cs| && cs[i].bomRef == r && a in cs[i].algorithms;
        assert all[i + 1] == cs[i];
      }
    }
  }

  /**
   The order, grouping and repetition of an inventory change no finding at all, descriptions included,
   exactly when no two different drafts of it share a key that is new.
   */
  lemma OrderMattersIff(evidence: seq<Evidence>, cs: seq<Component>, os: seq<Observation>, findings: seq<Finding>)
    ensures (forall cs', os' :: SameInventory(cs, os, cs', os') ==>
              SameFindings(PushAll(findings, Drafts(evidence, cs', os')), PushAll(findings, Drafts(evidence, cs, os))))
            <==> NewKeysFixDrafts(findings, Drafts(evidence, cs, os))
  {
    var ds := Drafts(evidence, cs, os);
    if NewKeysFixDrafts(findings, ds) {
      forall cs', os' | SameInventory(cs, os, cs', os')
        ensures SameFindings(PushAll(findings, Drafts(evidence, cs', os')), PushAll(findings, ds))
      {
        FixedDraftsAgree(evidence, cs, os, cs', os', findings);
      }
    } else {
      var d, e :| d in ds && e in ds && KeyOf(d) == KeyOf(e) && !HasKey(findings, KeyOf(d)) && d != e;
      DifferentDraftsShow(evidence, cs, os, findings, d, e);
    }
  }

  lemma FixedDraftsAgree(evidence: seq<Evidence>, cs: seq<Component>, os: seq<Observation>, cs': seq<Component>,
                         os': seq<Observation>, findings: seq<Finding>)
    requires SameInventory(cs, os, cs', os') && NewKeysFixDrafts(findings, Drafts(evidence, cs, os))
    ensures SameFindings(PushAll(findings, Drafts(evidence, cs', os')), PushAll(findings, Drafts(evidence, cs, os)))
  {
    var ds, es := Drafts(evidence, cs, os), Drafts(evidence, cs', os');
    forall d
      ensures d in ds <==> d in es
    {
      SameDrafts(evidence, cs, os, cs', os', d);
    }
    forall x
      ensures x in PushAll(findings, es) <==> x in PushAll(findings, ds)
    {
      FindingsOfPush(findings, ds, x);
      FindingsOfPush(findings, es, x);
    }
  }

  /** Of two different drafts of one new key, each is reported in some arrangement, and the other is then not. */
  lemma DifferentDraftsShow(evidence: seq<Evidence>, cs: seq<Component>, os: seq<Observation>, findings: seq<Finding>,
                            d: Finding, e: Finding)
    requires d in Drafts(evidence, cs, os) && e in Drafts(evidence, cs, os)
    requires KeyOf(d) == KeyOf(e) && !HasKey(findings, KeyOf(d)) && d != e
    ensures exists cs', os' :: SameInventory(cs, os, cs', os')
              && !SameFindings(PushAll(findings, Drafts(evidence, cs', os')),
                               PushAll(findings, Drafts(evidence, cs, os)))
  {
    var cs1, os1, i := SomeOrderDraftsFirst(evidence, cs, os, d);
    var cs2, os2, j := SomeOrderDraftsFirst(evidence, cs, os, e);
    FirstDraftWins(findings, Drafts(evidence, cs1, os1), i);
    FirstDraftWins(findings, Drafts(evidence, cs2, os2), j);
    var out := PushAll(findings, Drafts(evidence, cs, os));
    assert SameFindings(PushAll(findings, Drafts(evidence, cs1, os1)), out) ==> e !in out;
    assert SameFindings(PushAll(findings, Drafts(evidence, cs2, os2)), out) ==> e in out;
  }

  /**
   Such drafts exist: two short RSA keys of different size in one component; the finding names the one listed
   first.
   */
  lemma DescriptionNamesTheFirst(evidence: seq<Evidence>, bomRef: string, m: int, n: int)
    requires 0 < m < 3072 && 0 < n < 3072 && m != n
    ensures var a, b := Algorithm("RSA", "RSA", SIGNATURE, m), Algorithm("RSA", "RSA", SIGNATURE, n);
            PushAll([], Drafts(evidence, [Component(bomRef, [a, b])], [])) ==
            [Draft(evidence, Pqc002, bomRef, "RSA", RsaBelowThreshold(bomRef, m))]
  {
    var a, b := Algorithm("RSA", "RSA", SIGNATURE, m), Algorithm("RSA", "RSA", SIGNATURE, n);
    var c := Component(bomRef, [a, b]);
    var da, db := PublicKeyDraft(evidence, bomRef, a), PublicKeyDraft(evidence, bomRef, b);
    RsaDrafts(evidence, bomRef, m);
    RsaDrafts(evidence, bomRef, n);
    FlatMapTwo(OfAlgorithm(evidence, bomRef), a, b);
    FlatMapOne(OfComponent(evidence), c);
    assert FlatMap(OfAlgorithm(evidence, bomRef), [a, b]) == [da] + [db];
    assert Drafts(evidence, [c], []) == [da, db];
    assert [da, db][..1] == [da];
    PushOne([], da);
    assert PushAll([], [da]) == [da];
  }

  lemma FlatMapOne<T>(f: T -> seq<Finding>, x: T)
    ensures FlatMap(f, [x]) == f(x)
  {
    assert [x][..0] == [];
    assert FlatMap(f, [x][..0]) == [];
  }

  lemma FlatMapTwo<T>(f: T -> seq<Finding>, x: T, y: T)
    ensures FlatMap(f, [x, y]) == f(x) + f(y)
  {
    assert [x, y][..1] == [x];
    FlatMapOne(f, x);
  }

  lemma RsaDrafts(evidence: seq<Evidence>, bomRef: string, bits: int)
    requires 0 < bits < 3072
    ensures AlgorithmDrafts(evidence, bomRef, Algorithm("RSA", "RSA", SIGNATURE, bits)) ==
            [Draft(evidence, Pqc002, bomRef, "RSA", RsaBelowThreshold(bomRef, bits))]
    ensures PublicKeyDraft(evidence, bomRef, Algorithm("RSA", "RSA", SIGNATURE, bits)) ==
            Draft(evidence, Pqc002, bomRef, "RSA", RsaBelowThreshold(bomRef, bits))
  {
    assert Upper("RSA") == "RSA";
    var needles := ["RSA", "ECDSA", "ECDH", "ECDHE", "DH", "DSA"];
    assert OccursAt("RSA", 0, needles[0]);
    assert Contains("RSA", needles[0]);
  }

  // ---------------------------------------------------------------------------
  // Which algorithms are reported as classical public-key cryptography
  // ---------------------------------------------------------------------------

  lemma ContainsWithin(s: string, needle: string, inner: string)
    requires Contains(s, needle) && Contains(needle, inner)
    ensures Contains(s, inner)
  {
    var i: nat :| i <= |s| && OccursAt(s, i, needle);
    var j: nat :| j <= |needle| && OccursAt(needle, j, inner);
    forall k | 0 <= k < |inner|
      ensures s[i + j + k] == inner[k]
    {
      assert inner[k] == needle[j..j + |inner|][k] == needle[j + k];
      assert needle[j + k] == s[i..i + |needle|][j + k];
    }
    assert s[i + j..i + j + |inner|] == inner;
    assert OccursAt(s, i + j, inner);
  }

  /** Of the six needles for names, three decide. */
  lemma NameNeedles(s: string)
    ensures ContainsAny(s, ["RSA", "ECDSA", "ECDH", "ECDHE", "DH", "DSA"])
            <==> Contains(s, "RSA") || Contains(s, "DH") || Contains(s, "DSA")
  {
    var needles := ["RSA", "ECDSA", "ECDH", "ECDHE", "DH", "DSA"];
    assert OccursAt("ECDSA", 2, "DSA") && OccursAt("ECDH", 2, "DH") && OccursAt("ECDHE", 2, "DH");
    assert Contains(s, needles[0]) <==> Contains(s, "RSA");
    assert Contains(s, needles[4]) <==> Contains(s, "DH");
    assert Contains(s, needles[5]) <==> Contains(s, "DSA");
    if i :| 0 <= i < |needles| && Contains(s, needles[i]) {
      if i == 1 {
        ContainsWithin(s, "ECDSA", "DSA");
      } else if i == 2 {
        ContainsWithin(s, "ECDH", "DH");
      } else if i == 3 {
        ContainsWithin(s, "ECDHE", "DH");
      }
    }
  }

  lemma FamilyNeedles(s: string)
    ensures ContainsAny(s, ["RSA", "ECC", "ECDH", "DIFFIE", "DSA"])
            <==> Contains(s, "RSA") || Contains(s, "ECC") || Contains(s, "ECDH") || Contains(s, "DIFFIE")
                 || Contains(s, "DSA")
  {
    var needles := ["RSA", "ECC", "ECDH", "DIFFIE", "DSA"];
    assert needles[0] == "RSA" && needles[1] == "ECC" && needles[2] == "ECDH" && needles[3] == "DIFFIE";
    assert needles[4] == "DSA";
  }

  predicate PublicKeyRule(rule: Rule) { rule.Pqc001? || rule.Pqc002? || rule.Pqc007? }

  ghost predicate ReportedClassical(evidence: seq<Evidence>, bomRef: string, a: Algorithm) {
    exists d :: d in AlgorithmDrafts(evidence, bomRef, a) && PublicKeyRule(d.rule)
  }

  lemma OnlyClassicalIsReported(evidence: seq<Evidence>, bomRef: string, a: Algorithm)
    ensures ReportedClassical(evidence, bomRef, a) <==> PublicKeyRole(a.role) && ClassicalPublicKey(a)
  {
    if PublicKeyRole(a.role) && ClassicalPublicKey(a) {
      var d := PublicKeyDraft(evidence, bomRef, a);
      assert d in AlgorithmDrafts(evidence, bomRef, a) && PublicKeyRule(d.rule);
    }
  }

  /** A public-key algorithm is reported as classical exactly when its name or its family holds one of these texts. */
  lemma ReportedClassicalIff(evidence: seq<Evidence>, bomRef: string, a: Algorithm)
    requires PublicKeyRole(a.role)
    ensures var name, family := Upper(a.name), Upper(a.family);
            ReportedClassical(evidence, bomRef, a) <==>
            || Contains(name, "RSA") || Contains(name, "DH") || Contains(name, "DSA")
            || Contains(family, "RSA") || Contains(family, "ECC") || Contains(family, "ECDH")
            || Contains(family, "DIFFIE") || Contains(family, "DSA")
  {
    OnlyClassicalIsReported(evidence, bomRef, a);
    NameNeedles(Upper(a.name));
    FamilyNeedles(Upper(a.family));
  }

  lemma UpperConcat(s: string, t: string)
    ensures Upper(s + t) == Upper(s) + Upper(t)
  {
  }

  /** So a signature algorithm whose name holds DSA is always reported, whatever its family. */
  lemma DsaNamesAreReported(evidence: seq<Evidence>, bomRef: string, a: Algorithm)
    requires SignatureRole(a.role) && Contains(Upper(a.name), "DSA")
    ensures AlgorithmDrafts(evidence, bomRef, a) == [PublicKeyDraft(evidence, bomRef, a)]
    ensures PublicKeyDraft(evidence, bomRef, a).rule ==
            if Contains(Upper(a.name), "RSA") && 0 < a.keyBits < 3072 then Pqc002 else Pqc001
  {
    NameNeedles(Upper(a.name));
  }

  /** Post-quantum ones included: the scanners write ML-DSA and SLH-DSA, which end in DSA. */
  lemma PostQuantumIsReported(evidence: seq<Evidence>, bomRef: string, a: Algorithm, prefix: string)
    requires SignatureRole(a.role) && a.name == prefix + "DSA"
    ensures AlgorithmDrafts(evidence, bomRef, a) == [PublicKeyDraft(evidence, bomRef, a)]
  {
    UpperConcat(prefix, "DSA");
    assert Upper("DSA") == "DSA";
    assert OccursAt(Upper(a.name), |prefix|, "DSA");
    DsaNamesAreReported(evidence, bomRef, a);
  }

  // ---------------------------------------------------------------------------
  // Which findings there are, rule by rule
  // ---------------------------------------------------------------------------

  lemma HasKeyIn(findings: seq<Finding>, f: Finding)
    requires f in findings
    ensures HasKey(findings, KeyOf(f))
  {
    var i :| 0 <= i < |findings| && findings[i] == f;
    assert KeyOf(findings[i]) == KeyOf(f);
  }

  /** A key is there afterwards if it was before or is drafted. */
  lemma {:induction false} PushedKeyIff(findings: seq<Finding>, ds: seq<Finding>, k: Key)
    ensures HasKey(PushAll(findings, ds), k) <==> HasKey(findings, k) || exists d :: d in ds && KeyOf(d) == k
    decreases |ds|
  {
    if ds != [] {
      var front, last := ds[..|ds| - 1], ds[|ds| - 1];
      PushedKeyIff(findings, front, k);
      assert ds == front + [last];
      PushOneKey(PushAll(findings, front), last, k);
    }
  }

  lemma PushOneKey(findings: seq<Finding>, d: Finding, k: Key)
    ensures HasKey(Push(findings, d), k) <==> HasKey(findings, k) || KeyOf(d) == k
  {
    if HasKey(findings, k) {
      var i :| 0 <= i < |findings| && KeyOf(findings[i]) == k;
      assert KeyOf((findings + [d])[i]) == k;
    }
    assert (findings + [d])[|findings|] == d;
  }

  /** Severity, profile and description, as each rule has them: 3 is medium, 4 high, 5 critical. */
  ghost predicate Rated(f: Finding) {
    var d, asset, name := f.description, f.assetRef, f.algorithm;
    f.title == TitleOf(f.rule) &&
    match f.rule
    case Pqc001 =>
      f.severity == 4 && f.profile == CertificateSignatureModernization && d.SignatureUse? && d.bomRef == asset
      && d.name == name
    case Pqc002 =>
      f.severity == 5 && f.profile == CertificateSignatureModernization && d.RsaBelowThreshold? && d.bomRef == asset
    case Pqc004 => f.severity == 3 && f.profile == SymmetricMarginUpgrade && d == Aes128Reference(asset)
    case Pqc005 =>
      f.severity == 5 && f.profile == X25519Mlkem768 && d.ClassicalGroup? && d.endpoint == asset && d.group == name
    case Pqc006 =>
      f.severity == 4 && f.profile == CertificateSignatureModernization && d == ClassicalSignature(asset, name)
    case Pqc007 =>
      f.severity == 4 && f.profile == HybridTls13KeyExchange && d.KeyExchangeUse? && d.bomRef == asset && d.name == name
    case Classical003 => f.severity == 4 && f.profile == HashModernization && d == HashReference(asset, name)
    case Classical008 => f.severity == 5 && f.profile == MemoryKeyLeak && d == PrivateKey(asset)
    case Classical009 => f.severity == 4 && f.profile == RegistryHardening && d == WeakPolicy(name)
    case Net001 => f.severity == 5 && f.profile == EnableTls13Hybrid && d.Cleartext? && d.endpoint == asset
    case Net002 => f.severity == 4 && f.profile == EnableTls13First && d.VersionSeen? && d.endpoint == asset
    case OtherRule(_) => false
  }

  ghost predicate RuleDrafted(ds: seq<Finding>, k: Key) { exists d :: d in ds && KeyOf(d) == k }

  lemma ContainsEither(s: string, x: string, y: string)
    ensures ContainsAny(s, [x, y]) <==> Contains(s, x) || Contains(s, y)
  {
    assert [x, y][0] == x && [x, y][1] == y;
  }

  lemma ContainsOneOf3(s: string, x: string, y: string, z: string)
    ensures ContainsAny(s, [x, y, z]) <==> Contains(s, x) || Contains(s, y) || Contains(s, z)
  {
    assert [x, y, z][0] == x && [x, y, z][1] == y && [x, y, z][2] == z;
  }

  lemma ContainsOneOf4(s: string, x: string, y: string, z: string, w: string)
    ensures ContainsAny(s, [x, y, z, w]) <==> Contains(s, x) || Contains(s, y) || Contains(s, z) || Contains(s, w)
  {
    assert [x, y, z, w][0] == x && [x, y, z, w][1] == y && [x, y, z, w][2] == z && [x, y, z, w][3] == w;
  }

  lemma RuleDraftedConcat(x: seq<Finding>, y: seq<Finding>, k: Key)
    ensures RuleDrafted(x + y, k) <==> RuleDrafted(x, k) || RuleDrafted(y, k)
  {
    assert forall d :: d in x + y <==> d in x || d in y;
  }

  /** Nothing, or one finding of this key. */
  ghost predicate OnlyKey(ds: seq<Finding>, k: Key) {
    |ds| <= 1 && forall d :: d in ds ==> KeyOf(d) == k && Rated(d)
  }

  lemma OnlyKeyDrafted(ds: seq<Finding>, k: Key, k': Key)
    requires OnlyKey(ds, k)
    ensures RuleDrafted(ds, k') <==> ds != [] && k' == k
  {
    if ds != [] {
      assert ds[0] in ds;
    }
  }

  lemma OneIsOnly(d: Finding)
    requires Rated(d)
    ensures OnlyKey([d], KeyOf(d))
  {
  }

  lemma VersionPart(evidence: seq<Evidence>, o: Observation)
    ensures OnlyKey(VersionDrafts(evidence, o), Key(Net002, o.endpoint, o.cipherSuite))
  {
    OneIsOnly(Draft(evidence, Net002, o.endpoint, o.cipherSuite, VersionSeen(o.endpoint, o.tlsVersion)));
  }

  lemma GroupPart(evidence: seq<Evidence>, o: Observation)
    ensures OnlyKey(GroupDrafts(evidence, o), Key(Pqc005, o.endpoint, o.namedGroup))
  {
    OneIsOnly(Draft(evidence, Pqc005, o.endpoint, o.namedGroup,
                    ClassicalGroup(o.endpoint, o.namedGroup, o.cipherSuite)));
  }

  lemma SignaturePart(evidence: seq<Evidence>, o: Observation)
    ensures OnlyKey(SignatureDrafts(evidence, o), Key(Pqc006, o.endpoint, o.signatureAlgorithm))
  {
    OneIsOnly(Draft(evidence, Pqc006, o.endpoint, o.signatureAlgorithm,
                    ClassicalSignature(o.endpoint, o.signatureAlgorithm)));
  }

  lemma CleartextPart(evidence: seq<Evidence>, o: Observation)
    requires o.cleartext
    ensures |NetworkDrafts(evidence, o)| == 1
    ensures OnlyKey(NetworkDrafts(evidence, o), Key(Net001, o.endpoint, "cleartext"))
  {
    OneIsOnly(Draft(evidence, Net001, o.endpoint, "cleartext", Cleartext(o.endpoint, o.protocol)));
  }

  lemma NetworkParts(evidence: seq<Evidence>, o: Observation)
    ensures OnlyKey(VersionDrafts(evidence, o), Key(Net002, o.endpoint, o.cipherSuite))
    ensures OnlyKey(GroupDrafts(evidence, o), Key(Pqc005, o.endpoint, o.namedGroup))
    ensures OnlyKey(SignatureDrafts(evidence, o), Key(Pqc006, o.endpoint, o.signatureAlgorithm))
    ensures o.cleartext ==>
      |NetworkDrafts(evidence, o)| == 1 && OnlyKey(NetworkDrafts(evidence, o), Key(Net001, o.endpoint, "cleartext"))
  {
    VersionPart(evidence, o);
    GroupPart(evidence, o);
    SignaturePart(evidence, o);
    if o.cleartext {
      CleartextPart(evidence, o);
    }
  }

  lemma NetworkRules(evidence: seq<Evidence>, o: Observation, k: Key)
    ensures RuleDrafted(NetworkDrafts(evidence, o), k) <==>
            if o.cleartext then k == Key(Net001, o.endpoint, "cleartext")
            else
              || (VersionDrafts(evidence, o) != [] && k == Key(Net002, o.endpoint, o.cipherSuite))
              || (GroupDrafts(evidence, o) != [] && k == Key(Pqc005, o.endpoint, o.namedGroup))
              || (SignatureDrafts(evidence, o) != [] && k == Key(Pqc006, o.endpoint, o.signatureAlgorithm))
  {
    var v, g, s := VersionDrafts(evidence, o), GroupDrafts(evidence, o), SignatureDrafts(evidence, o);
    NetworkParts(evidence, o);
    if o.cleartext {
      OnlyKeyDrafted(NetworkDrafts(evidence, o), Key(Net001, o.endpoint, "cleartext"), k);
    } else {
      OnlyKeyDrafted(v, Key(Net002, o.endpoint, o.cipherSuite), k);
      OnlyKeyDrafted(g, Key(Pqc005, o.endpoint, o.namedGroup), k);
      OnlyKeyDrafted(s, Key(Pqc006, o.endpoint, o.signatureAlgorithm), k);
      RuleDraftedConcat(v + g, s, k);
      RuleDraftedConcat(v, g, k);
    }
  }

  /** What the fields of an observation are a sign of, and what the finding is then about. */
  ghost predicate Observed(o: Observation, k: Key) {
    var version, group, signature := Upper(o.tlsVersion), Upper(o.namedGroup), Upper(o.signatureAlgorithm);
    k.assetRef == o.endpoint &&
    match k.rule
    case Net001 => k.algorithm == "cleartext" && o.cleartext
    case Net002 =>
      k.algorithm == o.cipherSuite && !o.cleartext &&
      (o.tlsVersion == "" || "TLS1.0" <= version || "TLS1.1" <= version || "TLS1.2" <= version)
    case Pqc005 =>
      k.algorithm == o.namedGroup && !o.cleartext && !o.pqcHybrid
      && !Contains(group, "MLKEM") && !Contains(group, "ML-KEM")
    case Pqc006 =>
      k.algorithm == o.signatureAlgorithm && !o.cleartext
      && (Contains(signature, "RSA") || Contains(signature, "ECDSA"))
    case _ => false
  }

  lemma NetworkSigns(evidence: seq<Evidence>, o: Observation)
    ensures VersionDrafts(evidence, o) != [] <==>
            var version := Upper(o.tlsVersion);
            o.tlsVersion == "" || "TLS1.0" <= version || "TLS1.1" <= version || "TLS1.2" <= version
    ensures GroupDrafts(evidence, o) != [] <==>
            var group := Upper(o.namedGroup);
            !o.pqcHybrid && !Contains(group, "MLKEM") && !Contains(group, "ML-KEM")
    ensures SignatureDrafts(evidence, o) != [] <==>
            Contains(Upper(o.signatureAlgorithm), "RSA") || Contains(Upper(o.signatureAlgorithm), "ECDSA")
  {
    ContainsEither(Upper(o.namedGroup), "MLKEM", "ML-KEM");
    ContainsEither(Upper(o.signatureAlgorithm), "RSA", "ECDSA");
  }

  /**
   What one network observation comes to: a cleartext service is reported as that and nothing else; otherwise
   an old or unknown TLS version, a key exchange without ML-KEM and a classical certificate signature are each
   reported exactly when they are observed.
   */
  lemma ObservationFindingsIff(evidence: seq<Evidence>, o: Observation, was: seq<Finding>, k: Key)
    ensures HasKey(PushAll(was, NetworkDrafts(evidence, o)), k) <==> HasKey(was, k) || Observed(o, k)
  {
    PushedKeyIff(was, NetworkDrafts(evidence, o), k);
    ObservationDraftedIff(evidence, o, k);
  }

  lemma ObservationDraftedIff(evidence: seq<Evidence>, o: Observation, k: Key)
    ensures RuleDrafted(NetworkDrafts(evidence, o), k) <==> Observed(o, k)
  {
    NetworkRules(evidence, o, k);
    NetworkSigns(evidence, o);
  }

  lemma NetworkRated(evidence: seq<Evidence>, o: Observation)
    ensures forall d :: d in NetworkDrafts(evidence, o) ==> d.assetRef == o.endpoint && Rated(d)
  {
    NetworkParts(evidence, o);
    if !o.cleartext {
      assert forall d :: d in NetworkDrafts(evidence, o) <==>
          d in VersionDrafts(evidence, o) || d in GroupDrafts(evidence, o) || d in SignatureDrafts(evidence, o);
    }
  }

  /** Every new finding is rated as its rule is. */
  lemma NewFindingsAreRated(evidence: seq<Evidence>, o: Observation, bomRef: string, a: Algorithm, was: seq<Finding>)
    ensures forall f :: f in PushAll(was, NetworkDrafts(evidence, o)) && f !in was ==> Rated(f)
    ensures forall f :: f in PushAll(was, AlgorithmDrafts(evidence, bomRef, a)) && f !in was ==> Rated(f)
  {
    NetworkRated(evidence, o);
    AlgorithmRated(evidence, bomRef, a);
    AddedIsDrafted(was, NetworkDrafts(evidence, o));
    AddedIsDrafted(was, AlgorithmDrafts(evidence, bomRef, a));
  }

  lemma AddedIsDrafted(was: seq<Finding>, ds: seq<Finding>)
    ensures forall f :: f in PushAll(was, ds) && f !in was ==> f in ds
  {
    var out := PushAll(was, ds);
    PushExtends(was, ds);
    forall i | 0 <= i < |was|
      ensures out[i] in was
    {
      assert out[..|was|][i] == out[i];
    }
  }

  /** A classical public-key algorithm: a public-key role, and a name or a family that says so. */
  ghost predicate IsClassical(a: Algorithm) {
    var name, family := Upper(a.name), Upper(a.family);
    && 1 <= a.role <= 5
    && (|| Contains(name, "RSA") || Contains(name, "DH") || Contains(name, "DSA")
        || Contains(family, "RSA") || Contains(family, "ECC") || Contains(family, "ECDH")
        || Contains(family, "DIFFIE") || Contains(family, "DSA"))
  }

  lemma ClassicalIff(a: Algorithm)
    ensures PublicKeyRole(a.role) && ClassicalPublicKey(a) <==> IsClassical(a)
  {
    NameNeedles(Upper(a.name));
    FamilyNeedles(Upper(a.family));
  }

  lemma HashPart(evidence: seq<Evidence>, bomRef: string, a: Algorithm)
    ensures OnlyKey(HashDrafts(evidence, bomRef, a), Key(Classical003, bomRef, a.name))
  {
    OneIsOnly(Draft(evidence, Classical003, bomRef, a.name, HashReference(bomRef, a.name)));
  }

  lemma SymmetricPart(evidence: seq<Evidence>, bomRef: string, a: Algorithm)
    ensures OnlyKey(SymmetricDrafts(evidence, bomRef, a), Key(Pqc004, bomRef, a.name))
  {
    OneIsOnly(Draft(evidence, Pqc004, bomRef, a.name, Aes128Reference(bomRef)));
  }

  lemma ProtocolPart(evidence: seq<Evidence>, bomRef: string, a: Algorithm)
    ensures OnlyKey(ProtocolDrafts(evidence, bomRef, a), Key(Classical009, bomRef, a.name))
  {
    OneIsOnly(Draft(evidence, Classical009, bomRef, a.name, WeakPolicy(a.name)));
  }

  lemma PrivateKeyPart(evidence: seq<Evidence>, bomRef: string, a: Algorithm)
    ensures OnlyKey(KeyDrafts(evidence, bomRef, a), Key(Classical008, bomRef, a.name))
  {
    OneIsOnly(Draft(evidence, Classical008, bomRef, a.name, PrivateKey(bomRef)));
  }

  lemma AlgorithmParts(evidence: seq<Evidence>, bomRef: string, a: Algorithm)
    ensures OnlyKey(HashDrafts(evidence, bomRef, a), Key(Classical003, bomRef, a.name))
    ensures OnlyKey(SymmetricDrafts(evidence, bomRef, a), Key(Pqc004, bomRef, a.name))
    ensures OnlyKey(ProtocolDrafts(evidence, bomRef, a), Key(Classical009, bomRef, a.name))
    ensures OnlyKey(KeyDrafts(evidence, bomRef, a), Key(Classical008, bomRef, a.name))
  {
    HashPart(evidence, bomRef, a);
    SymmetricPart(evidence, bomRef, a);
    ProtocolPart(evidence, bomRef, a);
    PrivateKeyPart(evidence, bomRef, a);
  }

  lemma AlgorithmRules(evidence: seq<Evidence>, bomRef: string, a: Algorithm, k: Key)
    requires !(PublicKeyRole(a.role) && ClassicalPublicKey(a))
    ensures RuleDrafted(AlgorithmDrafts(evidence, bomRef, a), k) <==>
            k.assetRef == bomRef && k.algorithm == a.name &&
            (|| (HashDrafts(evidence, bomRef, a) != [] && k.rule == Classical003)
             || (SymmetricDrafts(evidence, bomRef, a) != [] && k.rule == Pqc004)
             || (ProtocolDrafts(evidence, bomRef, a) != [] && k.rule == Classical009)
             || (KeyDrafts(evidence, bomRef, a) != [] && k.rule == Classical008))
  {
    AlgorithmParts(evidence, bomRef, a);
    var h, s := HashDrafts(evidence, bomRef, a), SymmetricDrafts(evidence, bomRef, a);
    var p, d := ProtocolDrafts(evidence, bomRef, a), KeyDrafts(evidence, bomRef, a);
    OnlyKeyDrafted(h, Key(Classical003, bomRef, a.name), k);
    OnlyKeyDrafted(s, Key(Pqc004, bomRef, a.name), k);
    OnlyKeyDrafted(p, Key(Classical009, bomRef, a.name), k);
    OnlyKeyDrafted(d, Key(Classical008, bomRef, a.name), k);
    RuleDraftedConcat(h + s + p, d, k);
    RuleDraftedConcat(h + s, p, k);
    RuleDraftedConcat(h, s, k);
  }

  lemma AlgorithmRated(evidence: seq<Evidence>, bomRef: string, a: Algorithm)
    ensures forall d :: d in AlgorithmDrafts(evidence, bomRef, a) ==> Rated(d)
  {
    if PublicKeyRole(a.role) && ClassicalPublicKey(a) {
      PublicKeyRules(evidence, bomRef, a);
    } else {
      AlgorithmParts(evidence, bomRef, a);
      RatedConcat(HashDrafts(evidence, bomRef, a), SymmetricDrafts(evidence, bomRef, a));
      RatedConcat(HashDrafts(evidence, bomRef, a) + SymmetricDrafts(evidence, bomRef, a),
                  ProtocolDrafts(evidence, bomRef, a));
      RatedConcat(HashDrafts(evidence, bomRef, a) + SymmetricDrafts(evidence, bomRef, a)
                  + ProtocolDrafts(evidence, bomRef, a), KeyDrafts(evidence, bomRef, a));
    }
  }

  lemma RatedConcat(x: seq<Finding>, y: seq<Finding>)
    requires (forall d :: d in x ==> Rated(d)) && forall d :: d in y ==> Rated(d)
    ensures forall d :: d in x + y ==> Rated(d)
  {
  }

  lemma PublicKeyRules(evidence: seq<Evidence>, bomRef: string, a: Algorithm)
    requires PublicKeyRole(a.role) && ClassicalPublicKey(a)
    ensures var ds := AlgorithmDrafts(evidence, bomRef, a);
      && |ds| == 1 && ds[0].assetRef == bomRef && ds[0].algorithm == a.name && Rated(ds[0])
      && ds[0].rule == if a.role <= 2 then Pqc007
                       else if Contains(Upper(a.name), "RSA") && 0 < a.keyBits < 3072 then Pqc002 else Pqc001
  {
  }

  /** What the fields of an algorithm are a sign of. */
  ghost predicate Signs(a: Algorithm, rule: Rule) {
    var name, family := Upper(a.name), Upper(a.family);
    var short := Contains(name, "RSA") && 0 < a.keyBits < 3072;
    match rule
    case Pqc007 => IsClassical(a) && a.role <= 2
    case Pqc002 => IsClassical(a) && a.role >= 3 && short
    case Pqc001 => IsClassical(a) && a.role >= 3 && !short
    case Classical003 => !IsClassical(a) && (Contains(name, "MD5") || Contains(name, "SHA1") || Contains(name, "SHA-1"))
    case Pqc004 => !IsClassical(a) && Contains(name, "AES-128") && a.role == 6
    case Classical009 =>
      !IsClassical(a) &&
      (|| Contains(name, "TLS 1.0") || Contains(name, "TLS 1.1") || Contains(name, "RC4") || Contains(name, "3DES")
       || Contains(family, "TLS 1.0") || Contains(family, "TLS 1.1") || Contains(family, "RC4")
       || Contains(family, "3DES"))
    case Classical008 => !IsClassical(a) && a.name == "Unencrypted-Private-Key"
    case _ => false
  }

  lemma AlgorithmSigns(evidence: seq<Evidence>, bomRef: string, a: Algorithm)
    requires !IsClassical(a)
    ensures HashDrafts(evidence, bomRef, a) != [] <==> Signs(a, Classical003)
    ensures SymmetricDrafts(evidence, bomRef, a) != [] <==> Signs(a, Pqc004)
    ensures ProtocolDrafts(evidence, bomRef, a) != [] <==> Signs(a, Classical009)
    ensures KeyDrafts(evidence, bomRef, a) != [] <==> Signs(a, Classical008)
  {
    ContainsOneOf3(Upper(a.name), "MD5", "SHA1", "SHA-1");
    ContainsOneOf4(Upper(a.name), "TLS 1.0", "TLS 1.1", "RC4", "3DES");
    ContainsOneOf4(Upper(a.family), "TLS 1.0", "TLS 1.1", "RC4", "3DES");
  }

  /**
   What one algorithm comes to: a classical public-key algorithm is reported once, by its role and key size;
   of any other the four independent rules are each reported exactly on their own sign.
   */
  lemma AlgorithmFindingsIff(evidence: seq<Evidence>, bomRef: string, a: Algorithm, was: seq<Finding>, k: Key)
    ensures HasKey(PushAll(was, AlgorithmDrafts(evidence, bomRef, a)), k) <==>
            HasKey(was, k) || (k.assetRef == bomRef && k.algorithm == a.name && Signs(a, k.rule))
  {
    PushedKeyIff(was, AlgorithmDrafts(evidence, bomRef, a), k);
    AlgorithmDraftedIff(evidence, bomRef, a, k);
  }

  lemma AlgorithmDraftedIff(evidence: seq<Evidence>, bomRef: string, a: Algorithm, k: Key)
    ensures RuleDrafted(AlgorithmDrafts(evidence, bomRef, a), k) <==>
            k.assetRef == bomRef && k.algorithm == a.name && Signs(a, k.rule)
  {
    var ds := AlgorithmDrafts(evidence, bomRef, a);
    ClassicalIff(a);
    if IsClassical(a) {
      PublicKeyRules(evidence, bomRef, a);
      OnlyKeyDrafted(ds, Key(ds[0].rule, bomRef, a.name), k);
    } else {
      AlgorithmSigns(evidence, bomRef, a);
      AlgorithmRules(evidence, bomRef, a, k);
    }
  }

  lemma RoleNames()
    ensures RoleName(1) == "KEM" && RoleName(2) == "key exchange" && RoleName(3) == "signature"
    ensures RoleName(4) == "certificate public key" && RoleName(5) == "certificate signature"
    ensures forall role :: role < 1 || role > 5 ==> RoleName(role) == "cryptographic operation"
  {
  }

  /** Some algorithm of the inventory is a sign of this. */
  ghost predicate InventorySigns(components: seq<Component>, k: Key) {
    exists i, a :: 0 <= i < |components| && a in components[i].algorithms && components[i].bomRef == k.assetRef
      && a.name == k.algorithm && Signs(a, k.rule)
  }

  /**
   The whole assessment, over the fields of the inventory and the observations: a rule is reported of an asset
   and an algorithm exactly if it was before, or some algorithm or observation is a sign of it.
   */
  lemma AssessmentIff(evidence: seq<Evidence>, cs: seq<Component>, os: seq<Observation>, was: seq<Finding>, k: Key)
    ensures HasKey(PushAll(was, Drafts(evidence, cs, os)), k) <==>
            HasKey(was, k) || InventorySigns(cs, k) || exists o :: o in os && Observed(o, k)
  {
    PushedKeyIff(was, Drafts(evidence, cs, os), k);
    RuleDraftedConcat(InventoryDrafts(evidence, cs), ObservedDrafts(evidence, os), k);
    InventoryDraftedIff(evidence, cs, k);
    ObservedDraftedIff(evidence, os, k);
  }

  lemma InventoryDraftedIff(evidence: seq<Evidence>, cs: seq<Component>, k: Key)
    ensures RuleDrafted(InventoryDrafts(evidence, cs), k) <==> InventorySigns(cs, k)
  {
    if d :| d in InventoryDrafts(evidence, cs) && KeyOf(d) == k {
      InInventoryDrafts(evidence, cs, d);
      var bomRef, a :| Uses(cs, bomRef, a) && d in OfAlgorithm(evidence, bomRef)(a);
      assert RuleDrafted(AlgorithmDrafts(evidence, bomRef, a), k);
      AlgorithmDraftedIff(evidence, bomRef, a, k);
    }
    if i, a :| 0 <= i < |cs| && a in cs[i].algorithms && cs[i].bomRef == k.assetRef && a.name == k.algorithm
               && Signs(a, k.rule) {
      AlgorithmDraftedIff(evidence, k.assetRef, a, k);
      var d :| d in AlgorithmDrafts(evidence, k.assetRef, a) && KeyOf(d) == k;
      InInventoryDrafts(evidence, cs, d);
      assert Uses(cs, k.assetRef, a) && d in OfAlgorithm(evidence, k.assetRef)(a);
    }
  }

  lemma ObservedDraftedIff(evidence: seq<Evidence>, os: seq<Observation>, k: Key)
    ensures RuleDrafted(ObservedDrafts(evidence, os), k) <==> exists o :: o in os && Observed(o, k)
  {
    if d :| d in ObservedDrafts(evidence, os) && KeyOf(d) == k {
      InObservedDrafts(evidence, os, d);
      var o :| o in os && d in OfObservation(evidence)(o);
      assert RuleDrafted(NetworkDrafts(evidence, o), k);
      ObservationDraftedIff(evidence, o, k);
    }
    if o :| o in os && Observed(o, k) {
      ObservationDraftedIff(evidence, o, k);
      var d :| d in NetworkDrafts(evidence, o) && KeyOf(d) == k;
      InObservedDrafts(evidence, os, d);
      assert d in OfObservation(evidence)(o);
    }
  }

  /** Evidence concerns an asset named by a scheme and a path: the very name, the path, or one within the other. */
  lemma ConcernsIff(ev: Evidence, scheme: string, path: string)
    requires ':' !in scheme
    ensures Concerns(ev, scheme + ([':'] + path)) <==>
            var target, wanted := Backslashed(ev.target), Backslashed(path);
            || ev.target == scheme + ([':'] + path) || target == wanted
            || (|path| > 4 && Contains(target, wanted)) || (|ev.target| > 4 && Contains(wanted, target))
  {
    FirstOfIs(scheme, ':', path);
    assert (scheme + ([':'] + path))[|scheme| + 1..] == path;
  }
}
