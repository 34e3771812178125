/** The bytes themselves: what a ClientHello looks like on the wire, number by number, in the layouts of
    sections 4.1.2 and 5.1 of RFC 8446, and what the parser says to bytes that are something else. */
module WireFormat {
  import opened Common
  import opened Bytes
  import opened ClientHello
  import opened HelloRoundTrip

  // ---------------------------------------------------------------------------------------------
  // Numbers.

  function Two(n: int): (s: seq<byte>)
    requires 0 <= n < 65536
    ensures |s| == 2
  {
    [n / 256, n % 256]
  }

  function Three(n: int): seq<byte>
    requires 0 <= n < 16777216
  {
    [n / 65536, n / 256 % 256, n % 256]
  }

  /** Big-endian, both ways. */
  lemma NumbersAreBigEndian(n: int)
    requires 0 <= n < 16777216
    ensures Put24(n) == Three(n)
    ensures n < 65536 ==> Put16(n) == Two(n)
    ensures forall a: byte, b: byte :: U16([a, b]) == 256 * a + b
    ensures forall a: byte, b: byte, c: byte :: U24([a, b, c]) == 65536 * a + 256 * b + c
  {
  }

  function WordBytes(ws: seq<uint16>): (s: seq<byte>)
    ensures |s| == 2 * |ws|
  {
    if ws == [] then [] else Two(ws[0]) + WordBytes(ws[1..])
  }

  lemma {:induction false} WordsAreBigEndian(ws: seq<uint16>)
    ensures PutWords(ws) == WordBytes(ws)
  {
    if ws != [] {
      WordsAreBigEndian(ws[1..]);
    }
  }

  // ---------------------------------------------------------------------------------------------
  // The layout.

  function RecordBytes(f: Fragment): seq<byte>
    requires |f.payload| < 65536
  {
    [22] + Two(f.version) + Two(|f.payload|) + f.payload
  }

  function RecordsBytes(fs: seq<Fragment>): seq<byte>
    requires forall f <- fs :: |f.payload| < 65536
  {
    if fs == [] then [] else RecordBytes(fs[0]) + RecordsBytes(fs[1..])
  }

  function MessageBytes(body: seq<byte>): seq<byte>
    requires |body| < 16777216
  {
    [1] + Three(|body|) + body
  }

  function ExtensionBytes(es: seq<Extension>): seq<byte>
    requires forall e <- es :: |e.data| < 65536
  {
    if es == [] then []
    else Two(es[0].kind) + (Two(|es[0].data|) + es[0].data) + ExtensionBytes(es[1..])
  }

  /** Every field fits its length. */
  ghost predicate WireFits(h: Hello) {
    && |h.random| == 32 && |h.sessionId| < 256 && |h.cipherSuites| < 32768 && |h.compression| < 256
    && (forall e <- h.extensions :: |e.data| < 65536)
    && |ExtensionBytes(h.extensions)| < 65536
  }

  /** Version, random, session id, cipher suites, compression methods, and the extension block, which a hello
      without extensions may leave out. */
  function BodyBytes(h: Hello, omit: bool): seq<byte>
    requires WireFits(h)
  {
    Two(h.legacyVersion) + h.random +
    ([|h.sessionId|] + h.sessionId +
     (Two(2 * |h.cipherSuites|) + WordBytes(h.cipherSuites) +
      ([|h.compression|] + h.compression +
       (if omit && h.extensions == [] then []
        else Two(|ExtensionBytes(h.extensions)|) + ExtensionBytes(h.extensions)))))
  }

  lemma {:induction false} ExtensionsAre(es: seq<Extension>)
    requires DataFits(es)
    ensures PutExtensions(es) == ExtensionBytes(es)
  {
    if es != [] {
      ExtensionsAre(es[1..]);
      NumbersAreBigEndian(es[0].kind);
      NumbersAreBigEndian(|es[0].data|);
    }
  }

  lemma BodyIs(h: Hello, omit: bool)
    requires WireFits(h)
    ensures Fits(h) && PutBody(h, omit) == BodyBytes(h, omit)
  {
    hide WordBytes, PutWords, ExtensionBytes, PutExtensions, Two;
    ExtensionsAre(h.extensions);
    WordsAreBigEndian(h.cipherSuites);
    NumbersAreBigEndian(h.legacyVersion);
    NumbersAreBigEndian(2 * |h.cipherSuites|);
    NumbersAreBigEndian(|ExtensionBytes(h.extensions)|);
  }

  lemma MessageIs(body: seq<byte>)
    requires |body| < 16777216
    ensures Message(body) == MessageBytes(body)
  {
    NumbersAreBigEndian(|body|);
  }

  lemma {:induction false} RecordsAre(fs: seq<Fragment>)
    requires PayloadsFit(fs)
    ensures PutRecords(fs) == RecordsBytes(fs)
  {
    if fs != [] {
      RecordsAre(fs[1..]);
      NumbersAreBigEndian(fs[0].version);
      NumbersAreBigEndian(|fs[0].payload|);
    }
  }

  /** A hello as a browser writes it, in records however it is cut up, parses to that hello exactly when its
      message is at most 131072 bytes long. */
  lemma ABrowsersHelloParses(h: Hello, omit: bool, fs: seq<Fragment>)
    requires WireFits(h) && forall f <- fs :: |f.payload| < 65536
    requires |BodyBytes(h, omit)| < 16777216 && Payload(fs) == MessageBytes(BodyBytes(h, omit))
    ensures var r := Parse(RecordsBytes(fs));
            && (r.Ok? <==> |MessageBytes(BodyBytes(h, omit))| <= 131072)
            && (r.Ok? ==> r.value == h.(raw := r.value.raw) && r.value.raw <= RecordsBytes(fs))
            && (r.Err? ==> r.error == TooLarge)
  {
    hide BodyBytes, PutBody, Parse, MessageBytes, RecordsBytes, PutRecords, Fits, WireFits;
    BodyIs(h, omit);
    MessageIs(BodyBytes(h, omit));
    RecordsAre(fs);
    ParseReadsBack(h, omit, fs);
    if Parse(RecordsBytes(fs)).Ok? {
      ParseOwnRaw(RecordsBytes(fs));
    }
  }

  /** And nothing else does: what parses begins with handshake records that carry the message of that hello,
      with at most something after its extensions and after the message. */
  lemma WhatParsesIsAHello(records: seq<byte>)
    returns (omit: bool, slack: seq<byte>, fs: seq<Fragment>, extra: seq<byte>)
    requires Parse(records).Ok?
    ensures var h := Parse(records).value;
            && WireFits(h) && (forall f <- fs :: |f.payload| < 65536)
            && h.raw <= records && h.raw == RecordsBytes(fs)
            && |BodyBytes(h, omit) + slack| < 16777216
            && Payload(fs) == MessageBytes(BodyBytes(h, omit) + slack) + extra
            && |Payload(fs)| <= 131072
    ensures records != [] && records[0] == 22 && Payload(fs) != [] && Payload(fs)[0] == 1
  {
    hide Parse, PutBody;
    omit, slack, fs, extra := ParseAcceptsOnlyHellos(records);
    var h := Parse(records).value;
    ExtensionsAre(h.extensions);
    BodyIs(h, omit);
    MessageIs(PutBody(h, omit) + slack);
    RecordsAre(fs);
    assert fs != [];
  }

  // ---------------------------------------------------------------------------------------------
  // What the first record decides.

  /** The payload length a record states. */
  function Stated(records: seq<byte>): nat
    requires |records| >= 5
  {
    256 * (records[3] as int) + records[4] as int
  }

  /** Bytes that end within their first record are too few to judge, whatever they are; a whole record of another
      type is not a ClientHello, and neither is a handshake record that begins with another message. */
  lemma TheFirstRecordDecides(records: seq<byte>)
    ensures records == [] ==> Parse(records) == Err(NoRecords)
    ensures records != [] && (|records| < 5 || |records| < 5 + Stated(records)) ==>
              Parse(records) == Err(TruncatedRecord)
    ensures |records| >= 5 && |records| >= 5 + Stated(records) && records[0] != 22 ==>
              Parse(records) == Err(NotClientHello)
    ensures (|records| >= 5 && |records| >= 5 + Stated(records) && records[0] == 22 && Stated(records) > 0 &&
             records[5] != 1) ==> Parse(records) == Err(NotClientHello)
    ensures |records| == 5 && Stated(records) == 0 && records[0] == 22 ==> Parse(records) == Err(NoRecords)
  {
    if |records| >= 5 {
      var n := Stated(records);
      assert U16(records[3..]) == n;
      if |records| >= 5 + n {
        assert records[3..][2..2 + n] == records[5..5 + n] && records[3..][2 + n..] == records[5 + n..];
        assert [] + records[5..5 + n] == records[5..5 + n];
        if |records| == 5 {
          assert Reassemble(records[5..], [], 5) == Err(NoRecords);
        }
      }
    }
  }

  lemma Vector8Cut(v: seq<byte>, rest: seq<byte>, n: nat)
    requires |v| < 256 && n <= 1 + |v| + |rest|
    ensures Vector8((Put8Vector(v) + rest)[..n]) ==
            if n < 1 + |v| then None else Some(Read(v, rest[..n - 1 - |v|]))
  {
    if n >= 1 + |v| {
      assert (Put8Vector(v) + rest)[..n] == Put8Vector(v) + rest[..n - 1 - |v|];
      Vector8Put(v, rest[..n - 1 - |v|]);
    }
  }

  lemma Vector16Cut(v: seq<byte>, rest: seq<byte>, n: nat)
    requires |v| < 65536 && n <= 2 + |v| + |rest|
    ensures Vector16((Put16Vector(v) + rest)[..n]) ==
            if n < 2 + |v| then None else Some(Read(v, rest[..n - 2 - |v|]))
  {
    var s := Put16Vector(v) + rest;
    if n >= 2 + |v| {
      assert s[..n] == Put16Vector(v) + rest[..n - 2 - |v|];
      Vector16Put(v, rest[..n - 2 - |v|]);
    } else if n >= 2 {
      assert s[0] == Put16(|v|)[0] && s[1] == Put16(|v|)[1];
      assert U16(s[..n]) == U16(Put16(|v|));
    }
  }

  lemma ShorterRecord(s: seq<byte>, n: nat)
    requires FirstRecord(s).Some? && n <= |s|
    ensures var r := FirstRecord(s).value;
            FirstRecord(s[..n]) == if n < 5 + |r.value| then None else Some(Read(r.value, r.rest[..n - 5 - |r.value|]))
  {
    hide Vector16, Put16Vector;
    var r := FirstRecord(s).value;
    Vector16Took(s[3..]);
    if n >= 3 {
      Vector16Cut(r.value, r.rest, n - 3);
      assert s[..n][3..] == (Put16Vector(r.value) + r.rest)[..n - 3];
    }
  }

  lemma {:induction false} ReassembleIsShort(s: seq<byte>, acc: seq<byte>, consumed: nat, n: nat)
    requires Reassemble(s, acc, consumed).Ok? && n < Reassemble(s, acc, consumed).value.consumed - consumed
    ensures var r := Reassemble(s[..n], acc, consumed); r.Err? && Short(r.error)
    decreases |s|
  {
    hide FirstRecord, Judge;
    ShorterRecord(s, n);
    var record := FirstRecord(s).value;
    if n >= 5 + |record.value| {
      assert s[..n][0] == s[0];
      ReassembleIsShort(record.rest, acc + record.value, consumed + 5 + |record.value|, n - 5 - |record.value|);
    }
  }

  /** Until the last byte of a hello is there, the verdict is that bytes are missing, and no other. */
  lemma TooEarlyToJudge(stream: seq<byte>, n: nat)
    requires Parse(stream).Ok? && n < |Parse(stream).value.raw|
    ensures Parse(stream[..n]).Err?
    ensures Parse(stream[..n]).error in {NoRecords, TruncatedRecord, Incomplete}
  {
    hide Reassemble, ParseBody;
    var omit, slack := BodyTook(Blank(stream[..Reassemble(stream, [], 0).value.consumed]),
                                Reassemble(stream, [], 0).value.body);
    ReassembleIsShort(stream, [], 0, n);
  }

  // ---------------------------------------------------------------------------------------------
  // Where a body ends too early.

  /** Whole messages are judged by their body alone. */
  lemma AnyBody(body: seq<byte>, fs: seq<Fragment>)
    requires |body| < 16777216 && (forall f <- fs :: |f.payload| < 65536)
    requires Payload(fs) == MessageBytes(body) && |MessageBytes(body)| <= 131072
    ensures exists raw :: raw <= RecordsBytes(fs) && Parse(RecordsBytes(fs)) == ParseBody(Blank(raw), body)
  {
    hide Reassemble, ParseBody, PutRecords, RecordsBytes, Covering, Payload;
    var m := Message(body);
    MessageIs(body);
    RecordsAre(fs);
    assert m[0..] == m && m[..0] == [];
    FragmentsRead(fs, body, 0, 0);
    CarrierIsPrefix(fs, |m|);
    var raw := RecordsBytes(fs)[..|Carrier(fs, |m|)|];
    assert Parse(RecordsBytes(fs)) == ParseBody(Blank(raw), body);
  }

  lemma BlockCut(g: Hello, h: Hello, n: nat)
    requires Fits(h) && n < |PutBlock(h, false)|
    ensures ParseBlock(g, PutBlock(h, false)[..n]) == if n == 0 then Ok(g) else Err(AtExtensions)
  {
    var v := PutExtensions(h.extensions);
    Vector16Cut(v, [], n);
    assert Put16Vector(v) + [] == Put16Vector(v);
  }

  lemma CiphersCut(g: Hello, h: Hello, n: nat)
    requires Fits(h) && n < |PutCiphers(h, false)|
    ensures var c, d := 2 + 2 * |h.cipherSuites|, 3 + 2 * |h.cipherSuites| + |h.compression|;
            ParseCiphers(g, PutCiphers(h, false)[..n]) ==
            if n < c then Err(AtCipherSuites)
            else if n < d then Err(AtCompression)
            else if n == d then Ok(g.(cipherSuites := h.cipherSuites, compression := h.compression))
            else Err(AtExtensions)
  {
    hide Vector8, Vector16, Put8Vector, Put16Vector, PutWords, Words, PutBlock, ParseBlock;
    WordsPut(h.cipherSuites);
    Lengths(h);
    var c, d := 2 + 2 * |h.cipherSuites|, 3 + 2 * |h.cipherSuites| + |h.compression|;
    Vector16Cut(PutWords(h.cipherSuites), PutCompression(h, false), n);
    if n >= c {
      Vector8Cut(h.compression, PutBlock(h, false), n - c);
      if n >= d {
        BlockCut(g.(cipherSuites := h.cipherSuites, compression := h.compression), h, n - d);
      }
    }
  }

  lemma Lengths(h: Hello)
    requires Fits(h)
    ensures |Put8Vector(h.sessionId)| == 1 + |h.sessionId| && |Put8Vector(h.compression)| == 1 + |h.compression|
    ensures |Put16Vector(PutWords(h.cipherSuites))| == 2 + 2 * |h.cipherSuites|
  {
  }

  /** A body that stops short is reported at the field in which it stops; only one that stops right before the
      extension block is a whole hello, without extensions. */
  lemma ABodyEndsSomewhere(raw: seq<byte>, h: Hello, n: nat)
    requires WireFits(h) && n < |BodyBytes(h, false)|
    ensures var i := 35 + |h.sessionId|;
            var c := i + 2 + 2 * |h.cipherSuites|;
            var d := c + 1 + |h.compression|;
            ParseBody(Blank(raw), BodyBytes(h, false)[..n]) ==
            if n < 2 then Err(AtLegacyVersion)
            else if n < 34 then Err(AtRandom)
            else if n < i then Err(AtSessionId)
            else if n < c then Err(AtCipherSuites)
            else if n < d then Err(AtCompression)
            else if n == d then Ok(h.(raw := raw, extensions := []))
            else Err(AtExtensions)
  {
    hide BodyBytes, Put8Vector, Put16Vector, PutWords, PutCiphers, ParseCiphers, Vector8, WireFits, U16, Put16;
    BodyIs(h, false);
    Lengths(h);
    var s := PutBody(h, false);
    if n >= 34 {
      assert s[..n][34..] == PutSession(h, false)[..n - 34];
      assert s[..n][2..34] == h.random;
      assert s[..n][..2] == Put16(h.legacyVersion);
      VersionFirst(s[..n], h.legacyVersion);
      Vector8Cut(h.sessionId, PutCiphers(h, false), n - 34);
      var i := 35 + |h.sessionId|;
      if n >= i {
        var g := Blank(raw).(legacyVersion := h.legacyVersion, random := h.random, sessionId := h.sessionId);
        CiphersCut(g, h, n - i);
      }
    }
  }

  lemma VersionFirst(s: seq<byte>, v: uint16)
    requires |s| >= 2 && s[..2] == Put16(v)
    ensures U16(s) == v
  {
    assert U16(s) == U16(s[..2]);
  }

  /** A cipher list of odd length is refused. */
  lemma AnOddList(g: Hello, ciphers: seq<byte>, rest: seq<byte>)
    requires |ciphers| < 65536 && |ciphers| % 2 == 1
    ensures ParseCiphers(g, Two(|ciphers|) + ciphers + rest) == Err(AtCipherSuites)
  {
    NumbersAreBigEndian(|ciphers|);
    Vector16Put(ciphers, rest);
  }

  lemma LengthOf(v: seq<byte>)
    requires |v| < 65536
    ensures Put16Vector(v) == Two(|v|) + v
  {
    NumbersAreBigEndian(|v|);
  }

  lemma OneMoreBefore(e: Extension, rest: seq<byte>)
    requires |e.data| < 0x1_0000 && ParseExtensions(rest) == Err(AtExtension)
    ensures ParseExtensions(PutExtension(e) + rest) == Err(AtExtension)
  {
    hide PutExtension, Vector16, U16;
    ExtensionRead(e, rest);
  }

  lemma Shift<T>(a: seq<T>, b: seq<T>, c: seq<T>)
    ensures a + b + c == a + (b + c)
  {
  }

  lemma {:induction false} CutAfter(es: seq<Extension>, junk: seq<byte>)
    requires DataFits(es) && ParseExtensions(junk) == Err(AtExtension)
    ensures ParseExtensions(PutExtensions(es) + junk) == Err(AtExtension)
  {
    hide ParseExtensions, PutExtension;
    if es == [] {
      assert PutExtensions(es) + junk == junk;
    } else {
      CutAfter(es[1..], junk);
      OneMoreBefore(es[0], PutExtensions(es[1..]) + junk);
      Shift(PutExtension(es[0]), PutExtensions(es[1..]), junk);
    }
  }

  /** And so is an extension that does not fit its block, after whatever others. */
  lemma ACutExtension(es: seq<Extension>, e: Extension, n: nat)
    requires DataFits(es) && |e.data| < 65536 && 0 < n < 4 + |e.data|
    ensures ParseExtensions(ExtensionBytes(es) + (Two(e.kind) + Two(|e.data|) + e.data)[..n]) == Err(AtExtension)
  {
    hide Vector16, Two, U16, Put16Vector;
    NumbersAreBigEndian(|e.data|);
    LengthOf(e.data);
    var whole := Two(e.kind) + Two(|e.data|) + e.data;
    if n >= 2 {
      Vector16Cut(e.data, [], n - 2);
      assert Put16Vector(e.data) + [] == Put16Vector(e.data);
      assert whole[..n][2..] == Put16Vector(e.data)[..n - 2];
    }
    ExtensionsAre(es);
    CutAfter(es, whole[..n]);
  }
}
