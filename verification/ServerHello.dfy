/**
The TLS key-share extractor: it walks raw bytes record by record, handshake message by handshake
message, extension by extension, and returns the named group of the first ServerHello key share.
*/
module ServerHello {
  import opened Options
  import opened Bytes

  const HANDSHAKE := 0x16
  const SERVER_HELLO := 2
  const KEY_SHARE := 51

  // ---------------------------------------------------------------------------
  // The three walks as functions
  // ---------------------------------------------------------------------------

  function ExtensionWalk(b: seq<byte>, i: nat, end: nat): Option<nat>
    requires end <= |b|
    decreases end - i
  {
    if i + 4 > end then None
    else if Read16(b, i) == KEY_SHARE && Read16(b, i + 2) >= 2 && i + 6 <= end then Some(Read16(b, i + 4))
    else ExtensionWalk(b, i + 4 + Read16(b, i + 2), end)
  }

  /** Where the extensions' length field of a ServerHello body starting at `i` is expected. */
  function ExtensionsAt(b: seq<byte>, i: nat, end: nat): nat
    requires end <= |b|
  {
    i + 34 + (if i + 34 < end then 1 + b[i + 34] as int else 0) + 3
  }

  function HelloGroup(b: seq<byte>, i: nat, end: nat): Option<nat>
    requires end <= |b|
  {
    var x := ExtensionsAt(b, i, end);
    if x + 2 <= end && x + 2 + Read16(b, x) <= end then ExtensionWalk(b, x + 2, x + 2 + Read16(b, x)) else None
  }

  function MessageWalk(b: seq<byte>, h: nat, end: nat): Option<nat>
    requires end <= |b|
    decreases end - h
  {
    if h + 4 >= end then None else
      var next := h + 4 + Read24(b, h + 1);
      if b[h] != SERVER_HELLO then MessageWalk(b, next, end)
      else if next > end then None
      else
        var g := HelloGroup(b, h + 4, next);
        if g.Some? then g else MessageWalk(b, next, end)
  }

  function RecordWalk(b: seq<byte>, i: nat): Option<nat>
    decreases |b| - i
  {
    if i + 5 >= |b| then None
    else if b[i] == HANDSHAKE && b[i + 1] == 3 then
      var end := i + 5 + Read16(b, i + 3);
      if end > |b| then None else
        var g := MessageWalk(b, i + 5, end);
        if g.Some? then g else RecordWalk(b, end)
    else RecordWalk(b, i + 1)
  }

  // ---------------------------------------------------------------------------
  // The extractor's nested loops
  // ---------------------------------------------------------------------------

  /** Every index below is checked to be in bounds, and every loop to end, on every byte string. */
  method ExtractNamedGroup(b: seq<byte>) returns (group: Option<nat>)
    ensures group == RecordWalk(b, 0)
  {
    var i := 0;
    while i + 5 < |b|
      invariant RecordWalk(b, 0) == RecordWalk(b, i)
      decreases |b| - i
    {
      if b[i] == HANDSHAKE && b[i + 1] == 3 {
        var recordLen := b[i + 3] as int * 256 + b[i + 4];
        var recordEnd := i + 5 + recordLen;
        if recordEnd > |b| {
          break;
        }
        group := ScanRecord(b, i + 5, recordEnd);
        if group.Some? {
          return;
        }
        i := recordEnd;
      } else {
        i := i + 1;
      }
    }
    group := None;
  }

  method ScanRecord(b: seq<byte>, start: nat, end: nat) returns (group: Option<nat>)
    requires end <= |b|
    ensures group == MessageWalk(b, start, end)
  {
    var h := start;
    while h + 4 < end
      invariant MessageWalk(b, start, end) == MessageWalk(b, h, end)
      decreases end - h
    {
      var hsType := b[h];
      var hsLen := b[h + 1] as int * 0x1_0000 + b[h + 2] as int * 256 + b[h + 3];
      if hsType == SERVER_HELLO {
        var helloEnd := h + 4 + hsLen;
        if helloEnd > end {
          break;
        }
        group := ScanHello(b, h + 4, helloEnd);
        if group.Some? {
          return;
        }
      }
      h := h + 4 + hsLen;
    }
    group := None;
  }

  method ScanHello(b: seq<byte>, start: nat, end: nat) returns (group: Option<nat>)
    requires end <= |b|
    ensures group == HelloGroup(b, start, end)
  {
    var x := start + 2 + 32;
    if x < end {
      var sessionLen: int := b[x];
      x := x + 1 + sessionLen;
    }
    x := x + 2;
    x := x + 1;
    if x + 2 <= end {
      var extLen := b[x] as int * 256 + b[x + 1];
      x := x + 2;
      var extEnd := x + extLen;
      if extEnd <= end {
        ghost var first := x;
        while x + 4 <= extEnd
          invariant ExtensionWalk(b, first, extEnd) == ExtensionWalk(b, x, extEnd)
          decreases extEnd - x
        {
          var extType := b[x] as int * 256 + b[x + 1];
          var valLen := b[x + 2] as int * 256 + b[x + 3];
          x := x + 4;
          if extType == KEY_SHARE {
            if valLen >= 2 && x + 2 <= extEnd {
              return Some(b[x] as int * 256 + b[x + 1]);
            }
          }
          x := x + valLen;
        }
      }
    }
    group := None;
  }

  // ---------------------------------------------------------------------------
  // A returned group was really there
  // ---------------------------------------------------------------------------

  /** A key-share extension (51) of group `g` at `x`, in a ServerHello (2) at `h`, in a handshake record (22) at `i`. */
  ghost predicate KeyShareAt(b: seq<byte>, i: nat, h: nat, x: nat, g: nat) {
    && i + 5 <= h && h + 4 <= x && x + 6 <= |b|
    && b[i] == 22 && b[i + 1] == 3
    && b[h] == 2
    && x + 6 <= h + 4 + Read24(b, h + 1) <= i + 5 + Read16(b, i + 3) <= |b|
    && Read16(b, x) == 51 && Read16(b, x + 2) >= 2 && Read16(b, x + 4) == g
  }

  lemma {:induction false} ExtensionFound(b: seq<byte>, i: nat, end: nat) returns (x: nat)
    requires end <= |b| && ExtensionWalk(b, i, end).Some?
    ensures i <= x && x + 6 <= end && Read16(b, x) == KEY_SHARE && Read16(b, x + 2) >= 2
    ensures ExtensionWalk(b, i, end) == Some(Read16(b, x + 4))
    decreases end - i
  {
    if Read16(b, i) == KEY_SHARE && Read16(b, i + 2) >= 2 && i + 6 <= end {
      x := i;
    } else {
      x := ExtensionFound(b, i + 4 + Read16(b, i + 2), end);
    }
  }

  lemma {:induction false} MessageFound(b: seq<byte>, i: nat, h0: nat, end: nat) returns (h: nat, x: nat)
    requires i + 5 <= h0 && end <= |b| && MessageWalk(b, h0, end).Some?
    requires i + 5 <= |b| && end == i + 5 + Read16(b, i + 3) && b[i] == HANDSHAKE && b[i + 1] == 3
    ensures KeyShareAt(b, i, h, x, MessageWalk(b, h0, end).value)
    decreases end - h0
  {
    var next := h0 + 4 + Read24(b, h0 + 1);
    if b[h0] == SERVER_HELLO && HelloGroup(b, h0 + 4, next).Some? {
      var e := ExtensionsAt(b, h0 + 4, next);
      h := h0;
      x := ExtensionFound(b, e + 2, e + 2 + Read16(b, e));
    } else {
      h, x := MessageFound(b, i, next, end);
    }
  }

  /** On arbitrary bytes: whatever group is returned is the group of a key share found in the bytes. */
  lemma {:induction false} GroupWasThere(b: seq<byte>, from: nat) returns (i: nat, h: nat, x: nat)
    requires RecordWalk(b, from).Some?
    ensures KeyShareAt(b, i, h, x, RecordWalk(b, from).value)
    decreases |b| - from
  {
    if b[from] == HANDSHAKE && b[from + 1] == 3 {
      var end := from + 5 + Read16(b, from + 3);
      if MessageWalk(b, from + 5, end).Some? {
        i := from;
        h, x := MessageFound(b, from, from + 5, end);
      } else {
        i, h, x := GroupWasThere(b, end);
      }
    } else {
      i, h, x := GroupWasThere(b, from + 1);
    }
  }

  // ---------------------------------------------------------------------------
  // A ServerHello printer (sections 4, 4.1.3, 4.2 and 4.2.8 of RFC 8446) and the round trip
  // ---------------------------------------------------------------------------

  datatype Extension = Extension(kind: nat, body: seq<byte>)

  datatype Message = Message(kind: byte, body: seq<byte>)

  datatype Hello = Hello(version: seq<byte>, random: seq<byte>, session: seq<byte>, suite: seq<byte>,
                         compression: byte, before: seq<Extension>, group: nat, keyExchange: seq<byte>,
                         after: seq<Extension>)

  predicate ValidExtension(e: Extension) { e.kind < 0x1_0000 && |e.body| < 0x1_0000 }

  function PrintExtension(e: Extension): seq<byte>
    requires ValidExtension(e)
  {
    U16(e.kind) + (U16(|e.body|) + e.body)
  }

  function PrintExtensions(es: seq<Extension>): seq<byte>
    requires forall e :: e in es ==> ValidExtension(e)
    decreases |es|
  {
    if es == [] then [] else PrintExtension(es[0]) + PrintExtensions(es[1..])
  }

  function KeyShare(h: Hello): Extension
    requires h.group < 0x1_0000
  {
    Extension(51, U16(h.group) + h.keyExchange)
  }

  ghost predicate ValidHello(h: Hello) {
    && |h.version| == 2 && |h.random| == 32 && |h.session| < 256 && |h.suite| == 2
    && h.group < 0x1_0000 && ValidExtension(KeyShare(h))
    && (forall e :: e in h.before ==> ValidExtension(e) && e.kind != 51)
    && (forall e :: e in h.after ==> ValidExtension(e))
    && |HelloExtensions(h)| < 0x1_0000
  }

  ghost function HelloExtensions(h: Hello): seq<byte>
    requires h.group < 0x1_0000 && ValidExtension(KeyShare(h))
    requires forall e :: e in h.before ==> ValidExtension(e)
    requires forall e :: e in h.after ==> ValidExtension(e)
  {
    PrintExtensions(h.before) + (PrintExtension(KeyShare(h)) + PrintExtensions(h.after))
  }

  ghost function PrintHello(h: Hello): seq<byte>
    requires ValidHello(h)
  {
    (h.version + h.random) + ([|h.session|] + (h.session + ((h.suite + [h.compression]) +
      (U16(|HelloExtensions(h)|) + HelloExtensions(h)))))
  }

  predicate ValidMessage(m: Message) { |m.body| < 0x100_0000 }

  function PrintMessage(m: Message): seq<byte>
    requires ValidMessage(m)
  {
    [m.kind] + (U24(|m.body|) + m.body)
  }

  function PrintMessages(ms: seq<Message>): seq<byte>
    requires forall m :: m in ms ==> ValidMessage(m)
    decreases |ms|
  {
    if ms == [] then [] else PrintMessage(ms[0]) + PrintMessages(ms[1..])
  }

  function PrintRecord(minor: byte, payload: seq<byte>): seq<byte>
    requires |payload| < 0x1_0000
  {
    [22, 3, minor] + (U16(|payload|) + payload)
  }

  lemma {:induction false} SkipsExtensions(b: seq<byte>, i: nat, end: nat, es: seq<Extension>)
    requires forall e :: e in es ==> ValidExtension(e) && e.kind != KEY_SHARE
    requires At(b, i, PrintExtensions(es)) && i + |PrintExtensions(es)| <= end <= |b|
    ensures ExtensionWalk(b, i, end) == ExtensionWalk(b, i + |PrintExtensions(es)|, end)
    decreases |es|
  {
    if es != [] {
      var e := es[0];
      AtSplit(b, i, PrintExtension(e), PrintExtensions(es[1..]));
      ExtensionHeader(b, i, e);
      SkipsExtensions(b, i + |PrintExtension(e)|, end, es[1..]);
    }
  }

  lemma ExtensionHeader(b: seq<byte>, i: nat, e: Extension)
    requires ValidExtension(e) && At(b, i, PrintExtension(e))
    ensures Read16(b, i) == e.kind && Read16(b, i + 2) == |e.body| && At(b, i + 4, e.body)
  {
    AtSplit(b, i, U16(e.kind), U16(|e.body|) + e.body);
    AtSplit(b, i + 2, U16(|e.body|), e.body);
    ReadU16(b, i, e.kind);
    ReadU16(b, i + 2, |e.body|);
  }

  lemma KeyShareHere(b: seq<byte>, k: nat, end: nat, g: nat, keyExchange: seq<byte>)
    requires g < 0x1_0000 && |keyExchange| + 2 < 0x1_0000
    requires At(b, k, PrintExtension(Extension(KEY_SHARE, U16(g) + keyExchange)))
    requires k + 6 + |keyExchange| <= end <= |b|
    ensures ExtensionWalk(b, k, end) == Some(g)
  {
    ExtensionHeader(b, k, Extension(KEY_SHARE, U16(g) + keyExchange));
    AtSplit(b, k + 4, U16(g), keyExchange);
    ReadU16(b, k + 4, g);
  }

  lemma FindsKeyShare(b: seq<byte>, i: nat, before: seq<Extension>, g: nat, keyExchange: seq<byte>, tail: seq<byte>,
                      end: nat)
    requires forall e :: e in before ==> ValidExtension(e) && e.kind != KEY_SHARE
    requires g < 0x1_0000 && |keyExchange| + 2 < 0x1_0000
    requires var xs := PrintExtensions(before) + (PrintExtension(Extension(KEY_SHARE, U16(g) + keyExchange)) + tail);
             At(b, i, xs) && end == i + |xs|
    ensures ExtensionWalk(b, i, end) == Some(g)
  {
    var front, ks := PrintExtensions(before), PrintExtension(Extension(KEY_SHARE, U16(g) + keyExchange));
    AtSplit(b, i, front, ks + tail);
    SkipsExtensions(b, i, end, before);
    AtSplit(b, i + |front|, ks, tail);
    KeyShareHere(b, i + |front|, end, g, keyExchange);
  }

  /** Reading the fixed part of a ServerHello body leads to its extensions. */
  lemma HelloLayout(b: seq<byte>, i: nat, end: nat, fixed: seq<byte>, session: seq<byte>, suite: seq<byte>,
                    xs: seq<byte>)
    requires |fixed| == 34 && |session| < 256 && |suite| == 3 && |xs| < 0x1_0000 && i + 34 < end <= |b|
    requires At(b, i, fixed + ([|session|] + (session + (suite + (U16(|xs|) + xs)))))
    ensures ExtensionsAt(b, i, end) == i + 38 + |session|
    ensures At(b, i + 38 + |session|, U16(|xs|) + xs)
  {
    AtSplit(b, i, fixed, [|session|] + (session + (suite + (U16(|xs|) + xs))));
    AtSplit(b, i + 34, [|session|], session + (suite + (U16(|xs|) + xs)));
    AtIndex(b, i + 34, [|session|], 0);
    AtSplit(b, i + 35, session, suite + (U16(|xs|) + xs));
    AtSplit(b, i + 35 + |session|, suite, U16(|xs|) + xs);
  }

  lemma HelloReads(b: seq<byte>, i: nat, end: nat, x: nat, xs: seq<byte>)
    requires end <= |b| && ExtensionsAt(b, i, end) == x && |xs| < 0x1_0000
    requires At(b, x, U16(|xs|) + xs) && end == x + 2 + |xs|
    ensures At(b, x + 2, xs) && HelloGroup(b, i, end) == ExtensionWalk(b, x + 2, end)
  {
    AtSplit(b, x, U16(|xs|), xs);
    ReadU16(b, x, |xs|);
  }

  lemma HelloYieldsGroup(b: seq<byte>, i: nat, h: Hello)
    requires ValidHello(h) && At(b, i, PrintHello(h))
    ensures HelloGroup(b, i, i + |PrintHello(h)|) == Some(h.group)
  {
    var xs, end := HelloExtensions(h), i + |PrintHello(h)|;
    HelloLayout(b, i, end, h.version + h.random, h.session, h.suite + [h.compression], xs);
    HelloReads(b, i, end, i + 38 + |h.session|, xs);
    FindsKeyShare(b, i + 40 + |h.session|, h.before, h.group, h.keyExchange, PrintExtensions(h.after), end);
  }

  lemma MessageHeader(b: seq<byte>, i: nat, m: Message)
    requires ValidMessage(m) && At(b, i, PrintMessage(m))
    ensures b[i] == m.kind && Read24(b, i + 1) == |m.body| && At(b, i + 4, m.body)
  {
    AtSplit(b, i, [m.kind], U24(|m.body|) + m.body);
    AtIndex(b, i, [m.kind], 0);
    AtSplit(b, i + 1, U24(|m.body|), m.body);
    ReadU24(b, i + 1, |m.body|);
  }

  lemma {:induction false} SkipsMessages(b: seq<byte>, i: nat, end: nat, ms: seq<Message>)
    requires forall m :: m in ms ==> ValidMessage(m) && m.kind != SERVER_HELLO
    requires At(b, i, PrintMessages(ms)) && i + |PrintMessages(ms)| < end <= |b|
    ensures MessageWalk(b, i, end) == MessageWalk(b, i + |PrintMessages(ms)|, end)
    decreases |ms|
  {
    if ms != [] {
      var m := ms[0];
      AtSplit(b, i, PrintMessage(m), PrintMessages(ms[1..]));
      MessageHeader(b, i, m);
      SkipsMessages(b, i + |PrintMessage(m)|, end, ms[1..]);
    }
  }

  /** Reading a record header at the start of the bytes. */
  lemma RecordHeader(b: seq<byte>, minor: byte, payload: seq<byte>)
    requires |payload| < 0x1_0000 && At(b, 0, PrintRecord(minor, payload))
    ensures b[0] == HANDSHAKE && b[1] == 3 && Read16(b, 3) == |payload| && At(b, 5, payload)
  {
    AtSplit(b, 0, [HANDSHAKE, 3, minor], U16(|payload|) + payload);
    AtIndex(b, 0, [HANDSHAKE, 3, minor], 0);
    AtIndex(b, 0, [HANDSHAKE, 3, minor], 1);
    AtSplit(b, 3, U16(|payload|), payload);
    ReadU16(b, 3, |payload|);
  }

  lemma PayloadYieldsGroup(b: seq<byte>, earlier: seq<Message>, hello: Message, later: seq<byte>, end: nat, g: nat)
    requires ValidMessage(hello) && hello.kind == SERVER_HELLO
    requires forall i: nat :: At(b, i, hello.body) ==> HelloGroup(b, i, i + |hello.body|) == Some(g)
    requires hello.body != []
    requires forall m :: m in earlier ==> ValidMessage(m) && m.kind != SERVER_HELLO
    requires var payload := PrintMessages(earlier) + (PrintMessage(hello) + later);
             At(b, 5, payload) && end == 5 + |payload|
    ensures MessageWalk(b, 5, end) == Some(g)
  {
    var front := PrintMessages(earlier);
    AtSplit(b, 5, front, PrintMessage(hello) + later);
    AtSplit(b, 5 + |front|, PrintMessage(hello), later);
    SkipsMessages(b, 5, end, earlier);
    MessageHeader(b, 5 + |front|, hello);
  }

  lemma RecordYieldsGroup(minor: byte, earlier: seq<Message>, hello: Message, later: seq<byte>, trailing: seq<byte>,
                          g: nat)
    requires ValidMessage(hello) && hello.kind == SERVER_HELLO && hello.body != []
    requires forall b: seq<byte>, i: nat :: At(b, i, hello.body) ==> HelloGroup(b, i, i + |hello.body|) == Some(g)
    requires forall m :: m in earlier ==> ValidMessage(m) && m.kind != SERVER_HELLO
    requires |PrintMessages(earlier) + (PrintMessage(hello) + later)| < 0x1_0000
    ensures var payload := PrintMessages(earlier) + (PrintMessage(hello) + later);
            RecordWalk(PrintRecord(minor, payload) + trailing, 0) == Some(g)
  {
    var payload := PrintMessages(earlier) + (PrintMessage(hello) + later);
    var b := PrintRecord(minor, payload) + trailing;
    RecordHeader(b, minor, payload);
    PayloadYieldsGroup(b, earlier, hello, later, 5 + |payload|, g);
  }

  /**
   The extractor undoes the printer: a leading handshake record that holds any messages before the
   ServerHello, the ServerHello with any extensions around its key share, and anything after it,
   yields the key share's group.
   */
  lemma ExtractsPrintedGroup(minor: byte, earlier: seq<Message>, h: Hello, later: seq<byte>, trailing: seq<byte>)
    requires ValidHello(h) && ValidMessage(Message(2, PrintHello(h)))
    requires forall m :: m in earlier ==> ValidMessage(m) && m.kind != 2
    requires |PrintMessages(earlier) + (PrintMessage(Message(2, PrintHello(h))) + later)| < 0x1_0000
    ensures var payload := PrintMessages(earlier) + (PrintMessage(Message(2, PrintHello(h))) + later);
            RecordWalk(PrintRecord(minor, payload) + trailing, 0) == Some(h.group)
  {
    var hello := Message(SERVER_HELLO, PrintHello(h));
    forall b: seq<byte>, i: nat | At(b, i, hello.body)
      ensures HelloGroup(b, i, i + |hello.body|) == Some(h.group)
    {
      HelloYieldsGroup(b, i, h);
    }
    RecordYieldsGroup(minor, earlier, hello, later, trailing, h.group);
  }
}
