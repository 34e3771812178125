/** Reading a ClientHello out of TLS records: the message and record layouts of sections 4.1.2 and 5.1
    of RFC 8446. Each method is one of the parser's loops; the function it equals is reasoned about. */
module ClientHello {
  import opened Common
  import opened Bytes

  datatype Extension = Extension(kind: uint16, data: seq<byte>)

  datatype Hello = Hello(
    raw: seq<byte>,
    legacyVersion: uint16,
    random: seq<byte>,
    sessionId: seq<byte>,
    cipherSuites: seq<uint16>,
    compression: seq<byte>,
    extensions: seq<Extension>)

  datatype Error =
    | TruncatedRecord | NotClientHello | TooLarge | NoRecords | Incomplete
    | AtLegacyVersion | AtRandom | AtSessionId | AtCipherSuites | AtCompression | AtExtensions | AtExtension

  const HANDSHAKE: byte := 0x16
  const CLIENT_HELLO: byte := 0x01
  const MAX_HANDSHAKE := 0x2_0000

  // ---------------------------------------------------------------------------------------------
  // Records.

  function CompleteHandshake(handshake: seq<byte>): (body: Option<seq<byte>>)
    ensures body.Some? ==> 4 + |body.value| <= |handshake|
  {
    if |handshake| < 4 then None
    else
      var length := U24(handshake[1..4]);
      if |handshake| < 4 + length then None else Some(handshake[4..4 + length])
  }

  /** The whole record at the head of the input: type, version, length, payload. */
  function FirstRecord(s: seq<byte>): (r: Option<Read<seq<byte>>>)
    ensures r.Some? ==> |s| == 5 + |r.value.value| + |r.value.rest|
  {
    if |s| < 3 then None else Vector16(s[3..])
  }

  /** What the handshake bytes collected so far amount to. */
  datatype Verdict = More | Whole(body: seq<byte>) | Bad(error: Error)

  function Judge(handshake: seq<byte>): Verdict {
    if handshake == [] then More
    else if handshake[0] != CLIENT_HELLO then Bad(NotClientHello)
    else if |handshake| > MAX_HANDSHAKE then Bad(TooLarge)
    else
      var body := CompleteHandshake(handshake);
      if body.Some? then Whole(body.value) else More
  }

  /** A reassembled message body and how many input bytes it took. */
  datatype Assembled = Assembled(body: seq<byte>, consumed: nat)

  /** Reassembly from here on, with `acc` collected so far from `consumed` bytes. */
  function Reassemble(s: seq<byte>, acc: seq<byte>, consumed: nat): (r: Result<Assembled, Error>)
    ensures r.Ok? ==> consumed < r.value.consumed <= consumed + |s|
    decreases |s|
  {
    if s == [] then Err(if acc == [] then NoRecords else Incomplete)
    else if FirstRecord(s).None? then Err(TruncatedRecord)
    else if s[0] != HANDSHAKE then Err(NotClientHello)
    else
      var record := FirstRecord(s).value;
      var taken := consumed + 5 + |record.value|;
      match Judge(acc + record.value)
      case Bad(e) => Err(e)
      case Whole(body) => Ok(Assembled(body, taken))
      case More => Reassemble(record.rest, acc + record.value, taken)
  }

  method HandshakeBody(records: seq<byte>) returns (r: Result<Assembled, Error>)
    ensures r == Reassemble(records, [], 0)
  {
    hide FirstRecord, CompleteHandshake;
    var handshake: seq<byte> := [];
    var s := records;
    while s != []
      invariant |s| <= |records|
      invariant Reassemble(s, handshake, |records| - |s|) == Reassemble(records, [], 0)
      decreases |s|
    {
      var record := FirstRecord(s);
      if record.None? {
        return Err(TruncatedRecord);
      }
      if s[0] != HANDSHAKE {
        return Err(NotClientHello);
      }
      handshake := handshake + record.value.value;
      s := record.value.rest;
      if handshake == [] {
        continue;
      }
      if handshake[0] != CLIENT_HELLO {
        return Err(NotClientHello);
      }
      if |handshake| > MAX_HANDSHAKE {
        return Err(TooLarge);
      }
      var body := CompleteHandshake(handshake);
      if body.Some? {
        return Ok(Assembled(body.value, |records| - |s|));
      }
    }
    return Err(if handshake == [] then NoRecords else Incomplete);
  }

  // ---------------------------------------------------------------------------------------------
  // The body: each field is read off the front, into the hello so far.

  function ParseExtensions(s: seq<byte>): Result<seq<Extension>, Error>
    decreases |s|
  {
    if s == [] then Ok([])
    else if |s| < 2 || Vector16(s[2..]).None? then Err(AtExtension)
    else
      var data := Vector16(s[2..]).value;
      match ParseExtensions(data.rest)
      case Err(e) => Err(e)
      case Ok(more) => Ok([Extension(U16(s), data.value)] + more)
  }

  function ParseBlock(hello: Hello, s: seq<byte>): Result<Hello, Error> {
    if s == [] then Ok(hello)
    else if Vector16(s).None? then Err(AtExtensions)
    else match ParseExtensions(Vector16(s).value.value)
      case Err(e) => Err(e)
      case Ok(extensions) => Ok(hello.(extensions := extensions))
  }

  function ParseCompression(hello: Hello, s: seq<byte>): Result<Hello, Error> {
    if Vector8(s).None? then Err(AtCompression)
    else ParseBlock(hello.(compression := Vector8(s).value.value), Vector8(s).value.rest)
  }

  function ParseCiphers(hello: Hello, s: seq<byte>): Result<Hello, Error> {
    if Vector16(s).None? || |Vector16(s).value.value| % 2 != 0 then Err(AtCipherSuites)
    else ParseCompression(hello.(cipherSuites := Words(Vector16(s).value.value)), Vector16(s).value.rest)
  }

  function ParseSession(hello: Hello, s: seq<byte>): Result<Hello, Error> {
    if Vector8(s).None? then Err(AtSessionId)
    else ParseCiphers(hello.(sessionId := Vector8(s).value.value), Vector8(s).value.rest)
  }

  function ParseBody(hello: Hello, s: seq<byte>): Result<Hello, Error> {
    if |s| < 2 then Err(AtLegacyVersion)
    else if |s| < 34 then Err(AtRandom)
    else ParseSession(hello.(legacyVersion := U16(s), random := s[2..34]), s[34..])
  }

  function Blank(raw: seq<byte>): Hello {
    Hello(raw, 0, [], [], [], [], [])
  }

  function Parse(records: seq<byte>): Result<Hello, Error> {
    match Reassemble(records, [], 0)
    case Err(e) => Err(e)
    case Ok(assembled) => ParseBody(Blank(records[..assembled.consumed]), assembled.body)
  }

  method ParseClientHello(records: seq<byte>) returns (r: Result<Hello, Error>)
    ensures r == Parse(records)
  {
    var assembled := HandshakeBody(records);
    if assembled.Err? {
      return Err(assembled.error);
    }
    var s := assembled.value.body;
    var hello := Blank(records[..assembled.value.consumed]);
    if |s| < 2 {
      return Err(AtLegacyVersion);
    }
    hello := hello.(legacyVersion := U16(s));
    if |s[2..]| < 32 {
      return Err(AtRandom);
    }
    hello := hello.(random := s[2..][..32]);
    assert s[2..][..32] == s[2..34];
    s := s[34..];
    var sessionId := Vector8(s);
    if sessionId.None? {
      return Err(AtSessionId);
    }
    hello, s := hello.(sessionId := sessionId.value.value), sessionId.value.rest;
    var ciphers := Vector16(s);
    if ciphers.None? || |ciphers.value.value| % 2 != 0 {
      return Err(AtCipherSuites);
    }
    var suites := CipherSuites(ciphers.value.value);
    hello, s := hello.(cipherSuites := suites), ciphers.value.rest;
    var compression := Vector8(s);
    if compression.None? {
      return Err(AtCompression);
    }
    hello, s := hello.(compression := compression.value.value), compression.value.rest;
    if s == [] {
      return Ok(hello);
    }
    var block := Vector16(s);
    if block.None? {
      return Err(AtExtensions);
    }
    var extensions := Extensions(block.value.value);
    if extensions.Err? {
      return Err(extensions.error);
    }
    return Ok(hello.(extensions := extensions.value));
  }

  method CipherSuites(list: seq<byte>) returns (suites: seq<uint16>)
    requires |list| % 2 == 0
    ensures suites == Words(list)
  {
    var ciphers := list;
    suites := [];
    while ciphers != []
      invariant |ciphers| % 2 == 0
      invariant suites + Words(ciphers) == Words(list)
      decreases |ciphers|
    {
      suites := suites + [U16(ciphers)];
      ciphers := ciphers[2..];
    }
    assert suites + [] == suites;
  }

  method Extensions(block: seq<byte>) returns (r: Result<seq<Extension>, Error>)
    ensures r == ParseExtensions(block)
  {
    var extensions := block;
    var found: seq<Extension> := [];
    if ParseExtensions(block).Ok? {
      assert [] + ParseExtensions(block).value == ParseExtensions(block).value;
    }
    while extensions != []
      invariant match ParseExtensions(extensions)
                case Err(e) => ParseExtensions(block) == Err(e)
                case Ok(more) => ParseExtensions(block) == Ok(found + more)
      decreases |extensions|
    {
      if |extensions| < 2 || Vector16(extensions[2..]).None? {
        return Err(AtExtension);
      }
      var data := Vector16(extensions[2..]).value;
      var extension := Extension(U16(extensions), data.value);
      if ParseExtensions(data.rest).Ok? {
        assert found + ([extension] + ParseExtensions(data.rest).value)
            == (found + [extension]) + ParseExtensions(data.rest).value;
      }
      found := found + [extension];
      extensions := data.rest;
    }
    assert found + [] == found;
    r := Ok(found);
  }
}
