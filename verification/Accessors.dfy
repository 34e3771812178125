/** What a ClientHello says, read out of its extension bodies. Each method is one accessor's loop over a
    cursor, against a function of the body. */
module Accessors {
  import opened Common
  import opened Bytes
  import opened ClientHello

  const SERVER_NAME: uint16 := 0
  const SUPPORTED_GROUPS: uint16 := 10
  const EC_POINT_FORMATS: uint16 := 11
  const SIGNATURE_ALGORITHMS: uint16 := 13
  const ALPN: uint16 := 16
  const COMPRESS_CERTIFICATE: uint16 := 27
  const SUPPORTED_VERSIONS: uint16 := 43
  const PSK_MODES: uint16 := 45
  const KEY_SHARE: uint16 := 51
  const APPLICATION_SETTINGS: uint16 := 17513
  const APPLICATION_SETTINGS_OLD: uint16 := 17613

  function First(exts: seq<Extension>, kind: uint16): Option<seq<byte>> {
    if exts == [] then None
    else if exts[0].kind == kind then Some(exts[0].data)
    else First(exts[1..], kind)
  }

  method FindExtension(hello: Hello, kind: uint16) returns (r: Option<seq<byte>>)
    ensures r == First(hello.extensions, kind)
  {
    var exts := hello.extensions;
    for i := 0 to |exts|
      invariant First(exts, kind) == First(exts[i..], kind)
    {
      if exts[i].kind == kind {
        return Some(exts[i].data);
      }
      assert exts[i..][1..] == exts[i + 1..];
    }
    return None;
  }

  function Types(exts: seq<Extension>): (ts: seq<uint16>)
    ensures |ts| == |exts|
  {
    if exts == [] then [] else [exts[0].kind] + Types(exts[1..])
  }

  method ExtensionTypes(hello: Hello) returns (ts: seq<uint16>)
    ensures ts == Types(hello.extensions)
  {
    var exts := hello.extensions;
    ts := [];
    for i := 0 to |exts|
      invariant Types(exts) == ts + Types(exts[i..])
    {
      assert exts[i..][1..] == exts[i + 1..];
      ts := ts + [exts[i].kind];
    }
  }

  // ---------------------------------------------------------------------------------------------
  // Bodies.

  /** The first name of type zero in a server name list; any malformed entry before it hides it. */
  function HostName(list: seq<byte>): Option<seq<byte>> {
    if |list| < 1 || Vector16(list[1..]).None? then None
    else
      var name := Vector16(list[1..]).value;
      if list[0] == 0 then Some(name.value) else HostName(name.rest)
  }

  function ServerNameIn(data: seq<byte>): Option<seq<byte>> {
    if Vector16(data).None? then None else HostName(Vector16(data).value.value)
  }

  /** Strings behind one-byte lengths, up to the first that does not fit. */
  function Strings(list: seq<byte>): seq<seq<byte>> {
    if Vector8(list).None? then []
    else [Vector8(list).value.value] + Strings(Vector8(list).value.rest)
  }

  function ProtocolsIn(data: seq<byte>): seq<seq<byte>> {
    if Vector16(data).None? then [] else Strings(Vector16(data).value.value)
  }

  /** The groups of key shares, up to the first that does not fit. */
  function Groups(list: seq<byte>): seq<uint16> {
    if |list| < 2 || Vector16(list[2..]).None? then []
    else [U16(list)] + Groups(Vector16(list[2..]).value.rest)
  }

  function SharesIn(data: seq<byte>): seq<uint16> {
    if Vector16(data).None? then [] else Groups(Vector16(data).value.value)
  }

  /** Sixteen-bit values behind a length of one or two bytes; an odd byte spoils the whole list. */
  function WordsIn(body: Option<Read<seq<byte>>>): seq<uint16> {
    if body.None? || |body.value.value| % 2 != 0 then [] else Words(body.value.value)
  }

  function Words8In(data: seq<byte>): seq<uint16> {
    WordsIn(Vector8(data))
  }

  function Words16In(data: seq<byte>): seq<uint16> {
    WordsIn(Vector16(data))
  }

  function BytesIn(data: seq<byte>): seq<byte> {
    if Vector8(data).None? then [] else Vector8(data).value.value
  }

  // ---------------------------------------------------------------------------------------------
  // The hello's answers.

  /** What the first extension of a kind says, or the answer for no such extension. */
  function Said<T>(exts: seq<Extension>, kind: uint16, read: seq<byte> -> T, nothing: T): T {
    var body := First(exts, kind);
    if body.None? then nothing else read(body.value)
  }

  function ServerName(exts: seq<Extension>): Option<seq<byte>> {
    Said(exts, SERVER_NAME, ServerNameIn, None)
  }

  function Protocols(exts: seq<Extension>): seq<seq<byte>> {
    Said(exts, ALPN, ProtocolsIn, [])
  }

  function Versions(exts: seq<Extension>): seq<uint16> {
    Said(exts, SUPPORTED_VERSIONS, Words8In, [])
  }

  function SupportedGroups(exts: seq<Extension>): seq<uint16> {
    Said(exts, SUPPORTED_GROUPS, Words16In, [])
  }

  function Signatures(exts: seq<Extension>): seq<uint16> {
    Said(exts, SIGNATURE_ALGORITHMS, Words16In, [])
  }

  function Shares(exts: seq<Extension>): seq<uint16> {
    Said(exts, KEY_SHARE, SharesIn, [])
  }

  function Compressions(exts: seq<Extension>): seq<uint16> {
    Said(exts, COMPRESS_CERTIFICATE, Words8In, [])
  }

  function PointFormats(exts: seq<Extension>): seq<byte> {
    Said(exts, EC_POINT_FORMATS, BytesIn, [])
  }

  function PskModes(exts: seq<Extension>): seq<byte> {
    Said(exts, PSK_MODES, BytesIn, [])
  }

  /** The first of the two numbers whose body can be read at all. */
  function Settings(exts: seq<Extension>): seq<seq<byte>> {
    var body := First(exts, APPLICATION_SETTINGS);
    if body.Some? && Vector16(body.value).Some? then ProtocolsIn(body.value)
    else Said(exts, APPLICATION_SETTINGS_OLD, ProtocolsIn, [])
  }

  // ---------------------------------------------------------------------------------------------
  // The accessors.

  method ReadServerName(hello: Hello) returns (r: Option<seq<byte>>)
    ensures r == ServerName(hello.extensions)
  {
    var data := FindExtension(hello, SERVER_NAME);
    if data.None? || Vector16(data.value).None? {
      return None;
    }
    var list := Vector16(data.value).value.value;
    ghost var whole := list;
    while list != []
      invariant HostName(whole) == HostName(list)
      decreases |list|
    {
      var kind := list[0];
      var name := Vector16(list[1..]);
      if name.None? {
        return None;
      }
      if kind == 0 {
        return Some(name.value.value);
      }
      list := name.value.rest;
    }
    return None;
  }

  method ReadStrings(body: seq<byte>) returns (out: seq<seq<byte>>)
    ensures out == Strings(body)
  {
    var list := body;
    out := [];
    while list != []
      invariant Strings(body) == out + Strings(list)
      decreases |list|
    {
      var proto := Vector8(list);
      if proto.None? {
        return;
      }
      out := out + [proto.value.value];
      list := proto.value.rest;
    }
  }

  method ReadALPN(hello: Hello) returns (out: seq<seq<byte>>)
    ensures out == Protocols(hello.extensions)
  {
    var data := FindExtension(hello, ALPN);
    if data.None? || Vector16(data.value).None? {
      return [];
    }
    out := ReadStrings(Vector16(data.value).value.value);
  }

  method ReadKeyShareGroups(hello: Hello) returns (out: seq<uint16>)
    ensures out == Shares(hello.extensions)
  {
    var data := FindExtension(hello, KEY_SHARE);
    out := [];
    if data.None? || Vector16(data.value).None? {
      return;
    }
    var list := Vector16(data.value).value.value;
    ghost var whole := list;
    while list != []
      invariant Groups(whole) == out + Groups(list)
      decreases |list|
    {
      if |list| < 2 || Vector16(list[2..]).None? {
        return;
      }
      out := out + [U16(list)];
      list := Vector16(list[2..]).value.rest;
    }
  }

  method ReadApplicationSettings(hello: Hello) returns (out: seq<seq<byte>>)
    ensures out == Settings(hello.extensions)
  {
    var kinds := [APPLICATION_SETTINGS, APPLICATION_SETTINGS_OLD];
    for i := 0 to |kinds|
      invariant i > 0 ==> var d := First(hello.extensions, APPLICATION_SETTINGS); d.None? || Vector16(d.value).None?
      invariant i > 1 ==> var d := First(hello.extensions, APPLICATION_SETTINGS_OLD); d.None? || Vector16(d.value).None?
    {
      var data := FindExtension(hello, kinds[i]);
      if data.None? || Vector16(data.value).None? {
        continue;
      }
      out := ReadStrings(Vector16(data.value).value.value);
      return;
    }
    return [];
  }

  method ReadWords(body: Option<Read<seq<byte>>>) returns (out: seq<uint16>)
    ensures out == WordsIn(body)
  {
    out := [];
    if body.None? || |body.value.value| % 2 != 0 {
      return;
    }
    var list := body.value.value;
    while list != []
      invariant |list| % 2 == 0
      invariant Words(body.value.value) == out + Words(list)
      decreases |list|
    {
      out := out + [U16(list)];
      list := list[2..];
    }
  }

  // ---------------------------------------------------------------------------------------------
  // Reading undoes writing.

  /** An entry of a server name list: its type and its name. */
  datatype Name = Name(kind: byte, name: seq<byte>)

  datatype Share = Share(group: uint16, key: seq<byte>)

  predicate NamesFit(names: seq<Name>) {
    forall n <- names :: |n.name| < 0x1_0000
  }

  predicate StringsFit(strings: seq<seq<byte>>) {
    forall s <- strings :: |s| < 256
  }

  predicate SharesFit(shares: seq<Share>) {
    forall s <- shares :: |s.key| < 0x1_0000
  }

  function PutNames(names: seq<Name>): seq<byte>
    requires NamesFit(names)
  {
    if names == [] then [] else [names[0].kind] + (Put16Vector(names[0].name) + PutNames(names[1..]))
  }

  function PutStrings(strings: seq<seq<byte>>): seq<byte>
    requires StringsFit(strings)
  {
    if strings == [] then [] else Put8Vector(strings[0]) + PutStrings(strings[1..])
  }

  function PutShares(shares: seq<Share>): seq<byte>
    requires SharesFit(shares)
  {
    if shares == [] then [] else Put16(shares[0].group) + (Put16Vector(shares[0].key) + PutShares(shares[1..]))
  }

  /** The first name of type zero. */
  function FirstHost(names: seq<Name>): Option<seq<byte>> {
    if names == [] then None
    else if names[0].kind == 0 then Some(names[0].name)
    else FirstHost(names[1..])
  }

  function GroupsOf(shares: seq<Share>): (groups: seq<uint16>)
    ensures |groups| == |shares| && forall i :: 0 <= i < |shares| ==> groups[i] == shares[i].group
  {
    if shares == [] then [] else [shares[0].group] + GroupsOf(shares[1..])
  }

  lemma {:induction false} NamesRead(names: seq<Name>)
    requires NamesFit(names)
    ensures HostName(PutNames(names)) == FirstHost(names)
  {
    if names != [] {
      hide Vector16, Put16Vector;
      NamesRead(names[1..]);
      Vector16Put(names[0].name, PutNames(names[1..]));
      var s := PutNames(names);
      assert s[1..] == Put16Vector(names[0].name) + PutNames(names[1..]);
    }
  }

  lemma {:induction false} StringsRead(strings: seq<seq<byte>>)
    requires StringsFit(strings)
    ensures Strings(PutStrings(strings)) == strings
  {
    if strings != [] {
      hide Vector8, Put8Vector;
      StringsRead(strings[1..]);
      Vector8Put(strings[0], PutStrings(strings[1..]));
      assert strings == [strings[0]] + strings[1..];
    } else {
      assert Vector8([]).None?;
    }
  }

  lemma {:induction false} SharesRead(shares: seq<Share>)
    requires SharesFit(shares)
    ensures Groups(PutShares(shares)) == GroupsOf(shares)
  {
    if shares != [] {
      hide Vector16, Put16Vector;
      SharesRead(shares[1..]);
      Vector16Put(shares[0].key, PutShares(shares[1..]));
      var s := PutShares(shares);
      assert s[2..] == Put16Vector(shares[0].key) + PutShares(shares[1..]);
      assert U16(s) == U16(Put16(shares[0].group)) == shares[0].group;
    }
  }

  /** The body of a server name extension says the first host name written into it. */
  lemma ServerNameReadsBack(names: seq<Name>)
    requires NamesFit(names) && |PutNames(names)| < 0x1_0000
    ensures ServerNameIn(Put16Vector(PutNames(names))) == FirstHost(names)
  {
    hide HostName, PutNames, Vector16, Put16Vector;
    NamesRead(names);
    Whole16(PutNames(names));
  }

  /** The body of an ALPN or application settings extension says the protocols written into it. */
  lemma ProtocolsReadBack(strings: seq<seq<byte>>)
    requires StringsFit(strings) && |PutStrings(strings)| < 0x1_0000
    ensures ProtocolsIn(Put16Vector(PutStrings(strings))) == strings
  {
    hide Strings, PutStrings, Vector16, Put16Vector;
    StringsRead(strings);
    Whole16(PutStrings(strings));
  }

  /** The body of a key share extension says the groups of the shares written into it. */
  lemma SharesReadBack(shares: seq<Share>)
    requires SharesFit(shares) && |PutShares(shares)| < 0x1_0000
    ensures SharesIn(Put16Vector(PutShares(shares))) == GroupsOf(shares)
  {
    hide Groups, PutShares, Vector16, Put16Vector;
    SharesRead(shares);
    Whole16(PutShares(shares));
  }

  lemma Whole8(list: seq<byte>)
    requires |list| < 256
    ensures Vector8(Put8Vector(list)) == Some(Read(list, []))
  {
    hide Vector8, Put8Vector;
    Vector8Put(list, []);
    assert Put8Vector(list) + [] == Put8Vector(list);
  }

  lemma Whole16(list: seq<byte>)
    requires |list| < 0x1_0000
    ensures Vector16(Put16Vector(list)) == Some(Read(list, []))
  {
    hide Vector16, Put16Vector;
    Vector16Put(list, []);
    assert Put16Vector(list) + [] == Put16Vector(list);
  }

  /** The bodies that are lists of 16-bit values say the values written into them. */
  lemma Words8ReadBack(words: seq<uint16>)
    requires 2 * |words| < 256
    ensures Words8In(Put8Vector(PutWords(words))) == words
  {
    hide Words, PutWords, Vector8, Put8Vector;
    WordsPut(words);
    Whole8(PutWords(words));
  }

  lemma Words16ReadBack(words: seq<uint16>)
    requires 2 * |words| < 0x1_0000
    ensures Words16In(Put16Vector(PutWords(words))) == words
  {
    hide Words, PutWords, Vector16, Put16Vector;
    WordsPut(words);
    Whole16(PutWords(words));
  }

  /** Application settings are the first of the two kinds whose body can be read, as written. */
  lemma SettingsReadBack(exts: seq<Extension>, strings: seq<seq<byte>>)
    requires StringsFit(strings) && |PutStrings(strings)| < 0x1_0000
    requires First(exts, APPLICATION_SETTINGS) == Some(Put16Vector(PutStrings(strings))) ||
             (First(exts, APPLICATION_SETTINGS).None? &&
              First(exts, APPLICATION_SETTINGS_OLD) == Some(Put16Vector(PutStrings(strings))))
    ensures Settings(exts) == strings
  {
    hide First, PutStrings, Strings, Vector16, Put16Vector;
    ProtocolsReadBack(strings);
    Whole16(PutStrings(strings));
  }
}
