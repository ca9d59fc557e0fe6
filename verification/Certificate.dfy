/** The certificate parser's walk to the expiry time: nested element lists, optional leading fields. */
module Certificate {
  import opened Options
  import opened Bytes
  import opened Tlv
  import CertTime

  const SEQUENCE: byte := 0x30
  const INTEGER: byte := 0x02
  const VERSION: byte := 0xa0

  function StepOver(es: seq<Element>, i: nat, tag: byte): nat {
    if i < |es| && es[i].tag == tag then i + 1 else i
  }

  /** Index of the validity field: version and serial number are each skipped if present, then two sequences. */
  function ValidityAt(es: seq<Element>): nat {
    var i := StepOver(es, StepOver(es, 0, VERSION), INTEGER);
    StepOver(es, StepOver(es, i, SEQUENCE), SEQUENCE)
  }

  function FirstSequence(data: seq<byte>): Option<seq<byte>> {
    var es := ReadTlv(data);
    if es != [] && es[0].tag == SEQUENCE then Some(es[0].value) else None
  }

  /** Expiry of the certificate in Unix seconds, 0 when it cannot be found. */
  function NotAfter(der: seq<byte>): int {
    if FirstSequence(der).None? || FirstSequence(FirstSequence(der).value).None? then 0 else
      var fields := ReadTlv(FirstSequence(FirstSequence(der).value).value);
      var i := ValidityAt(fields);
      if i >= |fields| || fields[i].tag != SEQUENCE then 0 else
        var times := ReadTlv(fields[i].value);
        if |times| < 2 then 0 else CertTime.ParsedTime(times[1].tag, times[1].value)
  }

  method FindValidity(fields: seq<Element>) returns (idx: nat)
    ensures idx == ValidityAt(fields)
  {
    idx := 0;
    if idx < |fields| && fields[idx].tag == VERSION {
      idx := idx + 1;
    }
    if idx < |fields| && fields[idx].tag == INTEGER {
      idx := idx + 1;
    }
    if idx < |fields| && fields[idx].tag == SEQUENCE {
      idx := idx + 1;
    }
    if idx < |fields| && fields[idx].tag == SEQUENCE {
      idx := idx + 1;
    }
  }

  method ParseNotAfter(der: seq<byte>) returns (notAfter: int)
    ensures notAfter == NotAfter(der)
  {
    notAfter := 0;
    var top := ReadElements(der);
    if top != [] && top[0].tag == SEQUENCE {
      var tbsSeq := ReadElements(top[0].value);
      if tbsSeq != [] && tbsSeq[0].tag == SEQUENCE {
        var fields := ReadElements(tbsSeq[0].value);
        var idx := FindValidity(fields);
        if idx < |fields| && fields[idx].tag == SEQUENCE {
          var validity := ReadElements(fields[idx].value);
          if |validity| >= 2 {
            notAfter := CertTime.ParseTime(validity[1].tag, validity[1].value);
          }
        }
      }
    }
  }

  /** The fields of a certificate body that precede and include the validity (section 4.1 of RFC 5280). */
  datatype Body = Body(version: Option<seq<byte>>, serial: seq<byte>, algorithm: seq<byte>, issuer: seq<byte>,
                       notBefore: Element, notAfter: Element)

  ghost predicate Small(s: seq<byte>) { |s| < 0x1_0000_0000 }

  ghost predicate ValidBody(c: Body) {
    && (c.version.Some? ==> Small(c.version.value))
    && Small(c.serial) && Small(c.algorithm) && Small(c.issuer) && Small(c.notBefore.value) && Small(c.notAfter.value)
    && Small(DerAll([c.notBefore, c.notAfter]))
  }

  ghost function Fields(c: Body): seq<Element>
    requires ValidBody(c)
  {
    (if c.version.None? then [] else [Element(0xa0, c.version.value)]) +
    [Element(0x02, c.serial), Element(0x30, c.algorithm), Element(0x30, c.issuer),
     Element(0x30, DerAll([c.notBefore, c.notAfter]))]
  }

  /** Anything may follow the validity in the body, the body in the certificate, and the certificate. */
  ghost predicate IsCertificate(der: seq<byte>, c: Body, subject: seq<byte>, signature: seq<byte>,
          trailing: seq<byte>) {
    && ValidBody(c) && (forall e :: e in Fields(c) ==> Writable(e))
    && Writable(Element(0x30, DerAll(Fields(c)) + subject))
    && Writable(Element(0x30, Der(0x30, DerAll(Fields(c)) + subject) + signature))
    && der == Der(0x30, Der(0x30, DerAll(Fields(c)) + subject) + signature) + trailing
  }

  lemma ValidityIsFound(c: Body, after: seq<Element>)
    requires ValidBody(c)
    ensures var es := Fields(c) + after;
            ValidityAt(es) < |es| && es[ValidityAt(es)] == Element(0x30, DerAll([c.notBefore, c.notAfter]))
  {
  }

  lemma SequenceRead(value: seq<byte>, rest: seq<byte>)
    requires Writable(Element(SEQUENCE, value))
    ensures FirstSequence(Der(SEQUENCE, value) + rest) == Some(value)
  {
    ReadUndoesDer(SEQUENCE, value, rest);
  }

  lemma ValidityRead(c: Body)
    requires ValidBody(c)
    ensures ReadTlv(DerAll([c.notBefore, c.notAfter])) == [c.notBefore, c.notAfter]
  {
    var validity := DerAll([c.notBefore, c.notAfter]);
    ReadUndoesDerAll([c.notBefore, c.notAfter], []);
    assert validity + [] == validity;
  }

  /** Of a printed certificate, the parser reads exactly the second time of its validity. */
  lemma NotAfterOfPrinted(der: seq<byte>, c: Body, subject: seq<byte>, signature: seq<byte>, trailing: seq<byte>)
    requires IsCertificate(der, c, subject, signature, trailing)
    ensures NotAfter(der) == CertTime.ParsedTime(c.notAfter.tag, c.notAfter.value)
  {
    var body := DerAll(Fields(c)) + subject;
    SequenceRead(body, signature);
    SequenceRead(Der(SEQUENCE, body) + signature, trailing);
    ReadUndoesDerAll(Fields(c), subject);
    ValidityIsFound(c, ReadTlv(subject));
    ValidityRead(c);
  }

  /** Hence a certificate that expires between 1970 and 2049, written with a UTCTime, yields its expiry second. */
  lemma ExpiryOfPrinted(der: seq<byte>, c: Body, t: CertTime.Stamp, subject: seq<byte>, signature: seq<byte>,
                        trailing: seq<byte>)
    requires IsCertificate(der, c, subject, signature, trailing)
    requires CertTime.ValidStamp(t) && 1970 <= t.date.year <= 2049
    requires c.notAfter == Element(0x17, CertTime.PrintUtc(t))
    ensures NotAfter(der) == CertTime.ProlepticSeconds(t)
  {
    NotAfterOfPrinted(der, c, subject, signature, trailing);
    CertTime.UtcTimeIff(t);
  }
}
