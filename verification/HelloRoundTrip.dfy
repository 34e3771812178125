/** The ClientHello parser against a serialiser: it reads back every hello under every fragmentation
    into records, accepts nothing else, and what it accepted it accepts again whatever follows. */
module HelloRoundTrip {
  import opened Common
  import opened Bytes
  import opened ClientHello

  // ---------------------------------------------------------------------------------------------
  // The serialiser.

  function PutExtension(e: Extension): seq<byte>
    requires |e.data| < 0x1_0000
  {
    Put16(e.kind) + Put16Vector(e.data)
  }

  ghost predicate DataFits(es: seq<Extension>) {
    forall e <- es :: |e.data| < 0x1_0000
  }

  function PutExtensions(es: seq<Extension>): seq<byte>
    requires DataFits(es)
  {
    if es == [] then [] else PutExtension(es[0]) + PutExtensions(es[1..])
  }

  /** Every field fits its length prefix. */
  ghost predicate Fits(h: Hello) {
    && |h.random| == 32
    && |h.sessionId| < 256
    && 2 * |h.cipherSuites| < 0x1_0000
    && |h.compression| < 256
    && DataFits(h.extensions)
    && |PutExtensions(h.extensions)| < 0x1_0000
  }

  /** A hello without extensions may leave the block out altogether. */
  function PutBlock(h: Hello, omit: bool): seq<byte>
    requires Fits(h)
  {
    if omit && h.extensions == [] then [] else Put16Vector(PutExtensions(h.extensions))
  }

  function PutCompression(h: Hello, omit: bool): seq<byte>
    requires Fits(h)
  {
    Put8Vector(h.compression) + PutBlock(h, omit)
  }

  function PutCiphers(h: Hello, omit: bool): seq<byte>
    requires Fits(h)
  {
    Put16Vector(PutWords(h.cipherSuites)) + PutCompression(h, omit)
  }

  function PutSession(h: Hello, omit: bool): seq<byte>
    requires Fits(h)
  {
    Put8Vector(h.sessionId) + PutCiphers(h, omit)
  }

  /** The body of the message. Its length always fits the three bytes that state it. */
  function PutBody(h: Hello, omit: bool): (body: seq<byte>)
    requires Fits(h)
    ensures |body| < 0x100_0000
  {
    Put16(h.legacyVersion) + h.random + PutSession(h, omit)
  }

  function Message(body: seq<byte>): (m: seq<byte>)
    requires |body| < 0x100_0000
    ensures |m| == 4 + |body|
  {
    [CLIENT_HELLO] + Put24(|body|) + body
  }

  /** One record of a fragmented message. Its version is whatever the client writes there. */
  datatype Fragment = Fragment(version: uint16, payload: seq<byte>)

  ghost predicate PayloadsFit(fs: seq<Fragment>) {
    forall f <- fs :: |f.payload| < 0x1_0000
  }

  function PutRecord(f: Fragment): (r: seq<byte>)
    requires |f.payload| < 0x1_0000
    ensures |r| == 5 + |f.payload|
  {
    [HANDSHAKE] + Put16(f.version) + Put16Vector(f.payload)
  }

  function PutRecords(fs: seq<Fragment>): seq<byte>
    requires PayloadsFit(fs)
  {
    if fs == [] then [] else PutRecord(fs[0]) + PutRecords(fs[1..])
  }

  function Payload(fs: seq<Fragment>): seq<byte> {
    if fs == [] then [] else fs[0].payload + Payload(fs[1..])
  }

  /** How many leading fragments hold the first n bytes. */
  function Covering(fs: seq<Fragment>, n: nat): (k: nat)
    requires n <= |Payload(fs)|
    ensures k <= |fs|
  {
    if n == 0 then 0
    else if |fs[0].payload| >= n then 1
    else 1 + Covering(fs[1..], n - |fs[0].payload|)
  }

  // ---------------------------------------------------------------------------------------------
  // The body is read back.

  lemma ExtensionRead(e: Extension, rest: seq<byte>)
    requires |e.data| < 0x1_0000
    ensures var s := PutExtension(e) + rest;
            |s| >= 2 && U16(s) == e.kind && Vector16(s[2..]) == Some(Read(e.data, rest))
  {
    var s := PutExtension(e) + rest;
    assert s[2..] == Put16Vector(e.data) + rest;
    assert s[0] == Put16(e.kind)[0] && s[1] == Put16(e.kind)[1];
    Vector16Put(e.data, rest);
  }

  lemma {:induction false} ExtensionsRead(es: seq<Extension>)
    requires DataFits(es)
    ensures ParseExtensions(PutExtensions(es)) == Ok(es)
  {
    if es != [] {
      ExtensionRead(es[0], PutExtensions(es[1..]));
      ExtensionsRead(es[1..]);
      assert es == [es[0]] + es[1..];
    }
  }

  lemma BlockRead(g: Hello, h: Hello, omit: bool)
    requires Fits(h) && g.extensions == []
    ensures ParseBlock(g, PutBlock(h, omit)) == Ok(g.(extensions := h.extensions))
  {
    if PutBlock(h, omit) != [] {
      var s := Put16Vector(PutExtensions(h.extensions));
      assert s + [] == s;
      Vector16Put(PutExtensions(h.extensions), []);
      ExtensionsRead(h.extensions);
    }
  }

  lemma BodyRead(g: Hello, h: Hello, omit: bool)
    requires Fits(h) && g.extensions == []
    ensures ParseBody(g, PutBody(h, omit)) == Ok(h.(raw := g.raw))
  {
    var s := PutBody(h, omit);
    assert s[2..34] == h.random && s[34..] == PutSession(h, omit);
    assert U16(s) == U16(Put16(h.legacyVersion));
    var g0 := g.(legacyVersion := h.legacyVersion, random := h.random);
    SessionRead(g0, h, omit);
  }

  lemma SessionRead(g: Hello, h: Hello, omit: bool)
    requires Fits(h) && g.extensions == []
    ensures ParseSession(g, PutSession(h, omit)) ==
            Ok(g.(sessionId := h.sessionId, cipherSuites := h.cipherSuites, compression := h.compression,
                  extensions := h.extensions))
  {
    hide Vector8, Vector16, Put8Vector, Put16Vector, PutWords, Words, PutBlock, ParseBlock;
    Vector8Put(h.sessionId, PutCiphers(h, omit));
    Vector16Put(PutWords(h.cipherSuites), PutCompression(h, omit));
    WordsPut(h.cipherSuites);
    Vector8Put(h.compression, PutBlock(h, omit));
    BlockRead(g.(sessionId := h.sessionId, cipherSuites := h.cipherSuites, compression := h.compression), h, omit);
  }

  // ---------------------------------------------------------------------------------------------
  // A body that is read is one that was written.

  lemma ExtensionTook(s: seq<byte>)
    requires |s| >= 2 && Vector16(s[2..]).Some?
    ensures var data := Vector16(s[2..]).value;
            |data.value| < 0x1_0000 && s == PutExtension(Extension(U16(s), data.value)) + data.rest
  {
    Vector16Took(s[2..]);
    Put16Inverse(s[..2]);
    assert U16(s[..2]) == U16(s);
    assert s == s[..2] + s[2..];
  }

  lemma {:induction false} ExtensionsTook(s: seq<byte>)
    requires ParseExtensions(s).Ok?
    ensures DataFits(ParseExtensions(s).value)
    ensures PutExtensions(ParseExtensions(s).value) == s
    decreases |s|
  {
    if s != [] {
      ExtensionTook(s);
      var data := Vector16(s[2..]).value;
      ExtensionsTook(data.rest);
      assert ParseExtensions(s).value[1..] == ParseExtensions(data.rest).value;
    }
  }

  lemma BlockTook(g: Hello, s: seq<byte>) returns (omit: bool, slack: seq<byte>)
    requires ParseBlock(g, s).Ok? && g.extensions == []
    requires |g.random| == 32 && |g.sessionId| < 256 && 2 * |g.cipherSuites| < 0x1_0000 && |g.compression| < 256
    ensures var h := ParseBlock(g, s).value;
            h == g.(extensions := h.extensions) && Fits(h) && s == PutBlock(h, omit) + slack
    ensures omit ==> slack == []
  {
    omit, slack := s == [], [];
    if !omit {
      Vector16Took(s);
      ExtensionsTook(Vector16(s).value.value);
      slack := Vector16(s).value.rest;
    }
  }

  /** A body that parses is the serialisation of the hello it parses to, and perhaps something after
      the extension block that nobody looks at. */
  lemma BodyTook(g: Hello, s: seq<byte>) returns (omit: bool, slack: seq<byte>)
    requires ParseBody(g, s).Ok? && g.extensions == []
    ensures var h := ParseBody(g, s).value; Fits(h) && s == PutBody(h, omit) + slack && h.raw == g.raw
    ensures omit ==> slack == []
  {
    hide PutSession, ParseSession;
    Put16Inverse(s[..2]);
    assert U16(s[..2]) == U16(s);
    var tail := s[34..];
    assert s == s[..2] + s[2..34] + tail;
    var g0 := g.(legacyVersion := U16(s), random := s[2..34]);
    omit, slack := SessionTook(g0, tail);
    var h := ParseBody(g, s).value;
    assert s[..2] + s[2..34] + (PutSession(h, omit) + slack) == PutBody(h, omit) + slack;
  }

  lemma SessionTook(g: Hello, s: seq<byte>) returns (omit: bool, slack: seq<byte>)
    requires ParseSession(g, s).Ok? && g.extensions == [] && |g.random| == 32
    ensures var h := ParseSession(g, s).value;
            && Fits(h) && s == PutSession(h, omit) + slack
            && h.legacyVersion == g.legacyVersion && h.random == g.random && h.raw == g.raw
    ensures omit ==> slack == []
  {
    hide Vector8, Put8Vector, PutCiphers, ParseCiphers, PutWords, DataFits, PutExtensions;
    Vector8Took(s);
    var session := Vector8(s).value;
    var g1 := g.(sessionId := session.value);
    omit, slack := CiphersTook(g1, session.rest);
    var h := ParseSession(g, s).value;
    assert Put8Vector(h.sessionId) + (PutCiphers(h, omit) + slack) == PutSession(h, omit) + slack;
  }

  lemma CiphersTook(g: Hello, s: seq<byte>) returns (omit: bool, slack: seq<byte>)
    requires ParseCiphers(g, s).Ok? && g.extensions == [] && |g.random| == 32 && |g.sessionId| < 256
    ensures var h := ParseCiphers(g, s).value;
            && Fits(h) && s == PutCiphers(h, omit) + slack
            && h.legacyVersion == g.legacyVersion && h.random == g.random && h.raw == g.raw
            && h.sessionId == g.sessionId
    ensures omit ==> slack == []
  {
    hide Vector8, Vector16, Put8Vector, Put16Vector, PutWords, Words, PutBlock, ParseBlock;
    Vector16Took(s);
    var ciphers := Vector16(s).value;
    WordsTook(ciphers.value);
    Vector8Took(ciphers.rest);
    var compression := Vector8(ciphers.rest).value;
    var g2 := g.(cipherSuites := Words(ciphers.value), compression := compression.value);
    omit, slack := BlockTook(g2, compression.rest);
    var h := ParseCiphers(g, s).value;
    assert Put8Vector(h.compression) + (PutBlock(h, omit) + slack) == PutCompression(h, omit) + slack;
    assert Put16Vector(PutWords(h.cipherSuites)) + (PutCompression(h, omit) + slack) == PutCiphers(h, omit) + slack;
  }

  // ---------------------------------------------------------------------------------------------
  // Records, read back.

  lemma RecordRead(f: Fragment, rest: seq<byte>)
    requires |f.payload| < 0x1_0000
    ensures var s := PutRecord(f) + rest; s[0] == HANDSHAKE && FirstRecord(s) == Some(Read(f.payload, rest))
  {
    var s := PutRecord(f) + rest;
    assert s[3..] == Put16Vector(f.payload) + rest;
    Vector16Put(f.payload, rest);
  }

  lemma CompleteMessage(body: seq<byte>, n: nat)
    requires |body| < 0x100_0000 && n <= |Message(body)|
    ensures CompleteHandshake(Message(body)[..n]) == if n == |Message(body)| then Some(body) else None
  {
    var p := Message(body)[..n];
    if n >= 4 {
      var length := Put24(|body|);
      assert p[1] == length[0] && p[2] == length[1] && p[3] == length[2];
      assert p[1..4] == length;
      if n == |Message(body)| {
        assert p == Message(body) && |[CLIENT_HELLO] + length| == 4;
        assert p[4..] == body;
        assert p[4..4 + |body|] == p[4..];
      }
    }
  }

  /** No proper prefix of a message is complete, and the whole message is unless it is too large. */
  lemma JudgeMessage(body: seq<byte>, n: nat)
    requires |body| < 0x100_0000 && n <= |Message(body)|
    ensures Judge(Message(body)[..n]) ==
            if n > MAX_HANDSHAKE then Bad(TooLarge) else if n == |Message(body)| then Whole(body) else More
  {
    CompleteMessage(body, n);
  }

  lemma PutRecordsConcat(a: seq<Fragment>, b: seq<Fragment>)
    requires PayloadsFit(a) && PayloadsFit(b)
    ensures PutRecords(a + b) == PutRecords(a) + PutRecords(b)
  {
    if a == [] {
      assert a + b == b;
    } else {
      assert (a + b)[1..] == a[1..] + b;
      PutRecordsConcat(a[1..], b);
    }
  }

  ghost function Carrier(fs: seq<Fragment>, n: nat): seq<byte>
    requires PayloadsFit(fs) && n <= |Payload(fs)|
  {
    PutRecords(fs[..Covering(fs, n)])
  }

  lemma CarrierStep(fs: seq<Fragment>, n: nat)
    requires PayloadsFit(fs) && 0 < n <= |Payload(fs)|
    ensures |Carrier(fs, n)| == 5 + |fs[0].payload| +
              (if |fs[0].payload| >= n then 0 else |Carrier(fs[1..], n - |fs[0].payload|)|)
  {
    hide PutRecord;
    var k := Covering(fs, n);
    if |fs[0].payload| >= n {
      assert fs[..k] == [fs[0]];
      assert PutRecords([fs[0]]) == PutRecord(fs[0]) + PutRecords([]);
    } else {
      assert fs[..k][1..] == fs[1..][..k - 1];
    }
  }

  lemma {:induction false} FragmentsRead(fs: seq<Fragment>, body: seq<byte>, done: nat, consumed: nat)
    requires PayloadsFit(fs) && |body| < 0x100_0000
    requires done < |Message(body)| && done <= MAX_HANDSHAKE && Payload(fs) == Message(body)[done..]
    ensures Reassemble(PutRecords(fs), Message(body)[..done], consumed) ==
            if |Message(body)| <= MAX_HANDSHAKE
            then Ok(Assembled(body, consumed + |Carrier(fs, |Message(body)| - done)|))
            else Err(TooLarge)
    decreases |fs|
  {
    hide FirstRecord, Judge, PutRecord, Message, Covering;
    var m := Message(body);
    var p := fs[0].payload;
    RecordRead(fs[0], PutRecords(fs[1..]));
    assert Payload(fs) == p + Payload(fs[1..]);
    assert p == m[done..][..|p|] == m[done..done + |p|];
    assert m[..done] + p == m[..done + |p|];
    JudgeMessage(body, done + |p|);
    CarrierStep(fs, |m| - done);
    if done + |p| < |m| && done + |p| <= MAX_HANDSHAKE {
      assert Payload(fs[1..]) == m[done..][|p|..] == m[done + |p|..];
      FragmentsRead(fs[1..], body, done + |p|, consumed + 5 + |p|);
    }
  }

  lemma CarrierIsPrefix(fs: seq<Fragment>, n: nat)
    requires PayloadsFit(fs) && n <= |Payload(fs)|
    ensures Carrier(fs, n) <= PutRecords(fs)
  {
    hide PutRecords, Covering, Payload;
    var k := Covering(fs, n);
    var front, back := fs[..k], fs[k..];
    assert fs == front + back;
    PutRecordsConcat(front, back);
  }

  /** Reading back what was written. Every hello whose fields fit and whose message is within the limit
      comes back whole under every fragmentation, the records that carried it as its raw bytes; one over
      the limit is refused under every fragmentation. */
  lemma ParseReadsBack(h: Hello, omit: bool, fs: seq<Fragment>)
    requires Fits(h) && PayloadsFit(fs) && Payload(fs) == Message(PutBody(h, omit))
    ensures var m := Message(PutBody(h, omit));
            Parse(PutRecords(fs)) ==
            if |m| <= MAX_HANDSHAKE then Ok(h.(raw := PutRecords(fs[..Covering(fs, |m|)]))) else Err(TooLarge)
  {
    hide Reassemble, PutBody, ParseBody, PutRecords, Covering, Payload, Fits, Put24;
    var body := PutBody(h, omit);
    var m := Message(body);
    var carrier := Carrier(fs, |m|);
    assert m[0..] == m && m[..0] == [];
    FragmentsRead(fs, body, 0, 0);
    if |m| <= MAX_HANDSHAKE {
      assert Reassemble(PutRecords(fs), [], 0) == Ok(Assembled(body, |carrier|));
      CarrierIsPrefix(fs, |m|);
      assert PutRecords(fs)[..|carrier|] == carrier;
      BodyRead(Blank(carrier), h, omit);
    }
  }

  // ---------------------------------------------------------------------------------------------
  // A hello too long for the recorder.

  function Copies<T>(x: T, n: nat): (s: seq<T>)
    ensures |s| == n
  {
    if n == 0 then [] else Copies(x, n - 1) + [x]
  }

  /** Within every limit of the parser: many cipher suites and one large extension. */
  function LongHello(): Hello {
    Hello([], 0x0303, Copies(7, 32), [], Copies(0x1301, 2000), [0], [Extension(21, Copies(0, 65000))])
  }

  lemma LongHelloFits()
    ensures Fits(LongHello()) && |PutBody(LongHello(), false)| == 69045
  {
    hide Copies;
    var h := LongHello();
    var e := h.extensions[0];
    assert PutExtensions(h.extensions) == PutExtension(e) + PutExtensions([]) == PutExtension(e);
    assert |PutExtension(e)| == 65004;
  }

  /** Written in two records it parses, and its raw bytes are more than 65537. */
  lemma LongHelloParses() returns (records: seq<byte>)
    ensures Parse(records).Ok? && Parse(records).value.raw == records && |records| == 69059
  {
    LongHelloFits();
    hide Copies, LongHello, PutBody, Parse;
    var m := Message(PutBody(LongHello(), false));
    var fs := [Fragment(0x0301, m[..40000]), Fragment(0x0301, m[40000..])];
    TwoRecords(fs[0], fs[1]);
    assert m == m[..40000] + m[40000..];
    records := PutRecords(fs);
    ParseReadsBack(LongHello(), false, fs);
    assert Covering(fs, |m|) == 2 && fs[..2] == fs;
  }

  lemma TwoRecords(f: Fragment, g: Fragment)
    requires |f.payload| < 0x1_0000 && |g.payload| < 0x1_0000
    ensures PayloadsFit([f, g])
    ensures Payload([f, g]) == f.payload + g.payload
    ensures |PutRecords([f, g])| == 10 + |f.payload| + |g.payload|
    ensures forall n :: |f.payload| < n <= |f.payload| + |g.payload| ==> Covering([f, g], n) == 2
  {
    hide PutRecord;
    var fs := [f, g];
    assert fs[1..] == [g] && fs[1..][1..] == [];
    assert Payload([g]) == g.payload + Payload([]) == g.payload;
    assert PutRecords([g]) == PutRecord(g) + PutRecords([]) == PutRecord(g);
  }

  // ---------------------------------------------------------------------------------------------
  // Records that are read are records that were written.

  lemma RecordTook(s: seq<byte>) returns (f: Fragment)
    requires FirstRecord(s).Some? && s[0] == HANDSHAKE
    ensures f.payload == FirstRecord(s).value.value && |f.payload| < 0x1_0000
    ensures s == PutRecord(f) + FirstRecord(s).value.rest
  {
    f := Fragment(U16(s[1..3]), FirstRecord(s).value.value);
    Vector16Took(s[3..]);
    Put16Inverse(s[1..3]);
    assert s == [s[0]] + s[1..3] + s[3..];
  }

  lemma WholeIsMessage(handshake: seq<byte>) returns (extra: seq<byte>)
    requires Judge(handshake).Whole?
    ensures var body := Judge(handshake).body; |body| < 0x100_0000 && handshake == Message(body) + extra
    ensures |handshake| <= MAX_HANDSHAKE
  {
    var body := Judge(handshake).body;
    extra := handshake[4 + |body|..];
    Put24Inverse(handshake[1..4]);
    assert handshake == [handshake[0]] + handshake[1..4] + handshake[4..4 + |body|] + extra;
  }

  lemma {:induction false} FragmentsTook(s: seq<byte>, acc: seq<byte>, consumed: nat)
    returns (fs: seq<Fragment>, extra: seq<byte>)
    requires Reassemble(s, acc, consumed).Ok?
    ensures var r := Reassemble(s, acc, consumed).value;
            && |r.body| < 0x100_0000
            && PayloadsFit(fs) && s[..r.consumed - consumed] == PutRecords(fs)
            && acc + Payload(fs) == Message(r.body) + extra
            && |acc + Payload(fs)| <= MAX_HANDSHAKE
    decreases |s|
  {
    hide FirstRecord, Judge, PutRecord;
    var r := Reassemble(s, acc, consumed).value;
    var f := RecordTook(s);
    var rest := FirstRecord(s).value.rest;
    if Judge(acc + f.payload).Whole? {
      fs := [f];
      extra := WholeIsMessage(acc + f.payload);
      assert PutRecords(fs) == PutRecord(f) + PutRecords([]) == PutRecord(f);
      assert Payload(fs) == f.payload + Payload([]) == f.payload;
    } else {
      var tail;
      tail, extra := FragmentsTook(rest, acc + f.payload, consumed + 5 + |f.payload|);
      fs := [f] + tail;
      OneMoreRecord(f, tail, rest, r.consumed - consumed - 5 - |f.payload|);
      assert acc + Payload(fs) == acc + f.payload + Payload(tail);
    }
  }

  lemma OneMoreRecord(f: Fragment, tail: seq<Fragment>, rest: seq<byte>, n: nat)
    requires |f.payload| < 0x1_0000 && PayloadsFit(tail) && n <= |rest| && rest[..n] == PutRecords(tail)
    ensures PayloadsFit([f] + tail)
    ensures (PutRecord(f) + rest)[..5 + |f.payload| + n] == PutRecords([f] + tail)
    ensures Payload([f] + tail) == f.payload + Payload(tail)
  {
    assert ([f] + tail)[1..] == tail;
    assert (PutRecord(f) + rest)[..5 + |f.payload| + n] == PutRecord(f) + rest[..n];
  }

  /** Nothing else is accepted: what parses starts with handshake records carrying the message of the
      hello it parses to. `slack` is what the body holds after its extensions, `extra` what the last
      record holds after the message. */
  lemma ParseAcceptsOnlyHellos(records: seq<byte>)
    returns (omit: bool, slack: seq<byte>, fs: seq<Fragment>, extra: seq<byte>)
    requires Parse(records).Ok?
    ensures var h := Parse(records).value;
            && Fits(h)
            && h.raw <= records
            && PayloadsFit(fs) && h.raw == PutRecords(fs)
            && |PutBody(h, omit) + slack| < 0x100_0000
            && Payload(fs) == Message(PutBody(h, omit) + slack) + extra
            && |Payload(fs)| <= MAX_HANDSHAKE
            && (omit ==> slack == [])
  {
    var assembled := Reassemble(records, [], 0).value;
    omit, slack := BodyTook(Blank(records[..assembled.consumed]), assembled.body);
    fs, extra := FragmentsTook(records, [], 0);
    assert [] + Payload(fs) == Payload(fs);
  }

  // ---------------------------------------------------------------------------------------------
  // Stability.

  /** An error that more bytes may still turn into something else. */
  predicate Short(e: Error) {
    e in {TruncatedRecord, NoRecords, Incomplete}
  }

  lemma FirstRecordStable(s: seq<byte>, more: seq<byte>)
    requires FirstRecord(s).Some?
    ensures FirstRecord(s + more) ==
            Some(Read(FirstRecord(s).value.value, FirstRecord(s).value.rest + more))
  {
    Vector16Took(s[3..]);
    var r := FirstRecord(s).value;
    assert (s + more)[3..] == Put16Vector(r.value) + (r.rest + more);
    Vector16Put(r.value, r.rest + more);
  }

  lemma {:induction false} ReassembleStable(s: seq<byte>, acc: seq<byte>, consumed: nat, more: seq<byte>)
    requires var r := Reassemble(s, acc, consumed); r.Ok? || !Short(r.error)
    ensures Reassemble(s + more, acc, consumed) == Reassemble(s, acc, consumed)
    decreases |s|
  {
    hide FirstRecord, Judge;
    FirstRecordStable(s, more);
    var record := FirstRecord(s).value;
    if s[0] == HANDSHAKE && Judge(acc + record.value).More? {
      ReassembleStable(record.rest, acc + record.value, consumed + 5 + |record.value|, more);
    }
  }

  lemma {:induction false} ReassembleOwnPrefix(s: seq<byte>, acc: seq<byte>, consumed: nat)
    requires Reassemble(s, acc, consumed).Ok?
    ensures var r := Reassemble(s, acc, consumed);
            Reassemble(s[..r.value.consumed - consumed], acc, consumed) == r
    decreases |s|
  {
    hide FirstRecord, Judge;
    var r := Reassemble(s, acc, consumed).value;
    var f := RecordTook(s);
    var rest := FirstRecord(s).value.rest;
    var left := r.consumed - consumed - 5 - |f.payload|;
    assert s[..r.consumed - consumed] == PutRecord(f) + rest[..left];
    RecordRead(f, rest[..left]);
    if Judge(acc + f.payload).More? {
      ReassembleOwnPrefix(rest, acc + f.payload, consumed + 5 + |f.payload|);
    }
  }

  /** A verdict stands whatever bytes follow, unless it was that bytes are missing. */
  lemma ParseStable(records: seq<byte>, more: seq<byte>)
    requires Parse(records).Ok? || !Short(Parse(records).error)
    ensures Parse(records + more) == Parse(records)
  {
    ReassembleStable(records, [], 0, more);
    if Reassemble(records, [], 0).Ok? {
      var n := Reassemble(records, [], 0).value.consumed;
      assert (records + more)[..n] == records[..n];
    }
  }

  /** Parsing the raw bytes of a hello gives the hello again. */
  lemma ParseOwnRaw(records: seq<byte>)
    requires Parse(records).Ok?
    ensures Parse(records).value.raw <= records
    ensures Parse(Parse(records).value.raw) == Parse(records)
  {
    hide Reassemble, PutBody, ParseBody;
    ReassembleOwnPrefix(records, [], 0);
    var r := Reassemble(records, [], 0).value;
    var raw := records[..r.consumed];
    var omit, slack := BodyTook(Blank(raw), r.body);
    assert raw[..r.consumed] == raw;
  }
}
