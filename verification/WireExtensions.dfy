/** What a hello says, extension number by extension number and byte by byte, in the layouts of RFC 6066 section 3,
    RFC 7301 section 3.1, RFC 8422 section 5.1.2, RFC 8879 section 3 and RFC 8446 section 4.2. */
module WireExtensions {
  import opened Common
  import opened Bytes
  import opened ClientHello
  import opened Accessors
  import opened WireFormat

  /** The first extension of this number is the i-th, with this body. */
  predicate SaysFirst(exts: seq<Extension>, number: uint16, i: nat, body: seq<byte>) {
    && i < |exts| && exts[i] == Extension(number, body)
    && forall j :: 0 <= j < i ==> exts[j].kind != number
  }

  predicate SaysNothing(exts: seq<Extension>, number: uint16) {
    forall e <- exts :: e.kind != number
  }

  lemma {:induction false} FirstIs(exts: seq<Extension>, number: uint16, i: nat, body: seq<byte>)
    ensures SaysFirst(exts, number, i, body) ==> First(exts, number) == Some(body)
    ensures SaysNothing(exts, number) ==> First(exts, number) == None
  {
    if exts != [] && exts[0].kind != number {
      FirstIs(exts[1..], number, if i > 0 then i - 1 else 0, body);
    }
  }

  // --- lists on the wire ---

  function List8(ws: seq<uint16>): seq<byte>
    requires |ws| < 128
  {
    [2 * |ws|] + WordBytes(ws)
  }

  function List16(ws: seq<uint16>): seq<byte>
    requires |ws| < 32768
  {
    Two(2 * |ws|) + WordBytes(ws)
  }

  /** Each string behind its length. */
  function StringBytes(strings: seq<seq<byte>>): seq<byte>
    requires forall s <- strings :: |s| < 256
  {
    if strings == [] then [] else [|strings[0]|] + strings[0] + StringBytes(strings[1..])
  }

  /** Each entry its type, its length and the name. */
  function NameBytes(names: seq<Name>): seq<byte>
    requires forall n <- names :: |n.name| < 65536
  {
    if names == [] then []
    else [names[0].kind] + (Two(|names[0].name|) + names[0].name + NameBytes(names[1..]))
  }

  /** Each share its group, its length and the key. */
  function ShareBytes(shares: seq<Share>): seq<byte>
    requires forall s <- shares :: |s.key| < 65536
  {
    if shares == [] then []
    else Two(shares[0].group) + (Two(|shares[0].key|) + shares[0].key + ShareBytes(shares[1..]))
  }

  lemma {:induction false} StringsAre(strings: seq<seq<byte>>)
    requires StringsFit(strings)
    ensures PutStrings(strings) == StringBytes(strings)
  {
    if strings != [] {
      StringsAre(strings[1..]);
    }
  }

  lemma {:induction false} NamesAre(names: seq<Name>)
    requires NamesFit(names)
    ensures PutNames(names) == NameBytes(names)
  {
    if names != [] {
      NamesAre(names[1..]);
      LengthOf(names[0].name);
    }
  }

  lemma {:induction false} SharesAre(shares: seq<Share>)
    requires SharesFit(shares)
    ensures PutShares(shares) == ShareBytes(shares)
  {
    if shares != [] {
      SharesAre(shares[1..]);
      NumbersAreBigEndian(shares[0].group);
      LengthOf(shares[0].key);
    }
  }

  lemma {:induction false} FirstHostIs(names: seq<Name>, k: nat)
    requires k <= |names| && (forall j :: 0 <= j < k ==> names[j].kind != 0) && (k < |names| ==> names[k].kind == 0)
    ensures FirstHost(names) == if k < |names| then Some(names[k].name) else None
  {
    if k > 0 {
      FirstHostIs(names[1..], k - 1);
    }
  }

  // --- number by number ---

  /** Extension 0 says the first host name in its list, which is the first entry of type 0. */
  lemma NumberZeroSaysTheHost(exts: seq<Extension>, i: nat, names: seq<Name>, k: nat)
    requires (forall n <- names :: |n.name| < 65536) && |NameBytes(names)| < 65536
    requires k <= |names| && (forall j :: 0 <= j < k ==> names[j].kind != 0) && (k < |names| ==> names[k].kind == 0)
    ensures SaysFirst(exts, 0, i, Two(|NameBytes(names)|) + NameBytes(names)) ==>
              ServerName(exts) == if k < |names| then Some(names[k].name) else None
    ensures SaysNothing(exts, 0) ==> ServerName(exts) == None
  {
    hide First, NameBytes, PutNames, ServerNameIn, SaysFirst, SaysNothing, Two;
    NamesAre(names);
    LengthOf(NameBytes(names));
    ServerNameReadsBack(names);
    FirstHostIs(names, k);
    FirstIs(exts, 0, i, Two(|NameBytes(names)|) + NameBytes(names));
  }

  /** Extensions 10 and 13 are the groups and the signature algorithms, behind two length bytes. */
  lemma NumbersTenAndThirteen(exts: seq<Extension>, i: nat, ws: seq<uint16>)
    requires |ws| < 32768
    ensures SaysFirst(exts, 10, i, List16(ws)) ==> SupportedGroups(exts) == ws
    ensures SaysFirst(exts, 13, i, List16(ws)) ==> Signatures(exts) == ws
    ensures SaysNothing(exts, 10) ==> SupportedGroups(exts) == []
    ensures SaysNothing(exts, 13) ==> Signatures(exts) == []
  {
    hide First, WordBytes, PutWords, Words16In, SaysFirst, SaysNothing, Two;
    WordsAreBigEndian(ws);
    LengthOf(PutWords(ws));
    Words16ReadBack(ws);
    FirstIs(exts, 10, i, List16(ws));
    FirstIs(exts, 13, i, List16(ws));
  }

  /** Extensions 43 and 27 are the versions and the certificate compressions, behind one length byte. */
  lemma NumbersFortyThreeAndTwentySeven(exts: seq<Extension>, i: nat, ws: seq<uint16>)
    requires |ws| < 128
    ensures SaysFirst(exts, 43, i, List8(ws)) ==> Versions(exts) == ws
    ensures SaysFirst(exts, 27, i, List8(ws)) ==> Compressions(exts) == ws
    ensures SaysNothing(exts, 43) ==> Versions(exts) == []
    ensures SaysNothing(exts, 27) ==> Compressions(exts) == []
  {
    hide First, WordBytes, PutWords, Words8In, SaysFirst, SaysNothing;
    WordsAreBigEndian(ws);
    Words8ReadBack(ws);
    FirstIs(exts, 43, i, List8(ws));
    FirstIs(exts, 27, i, List8(ws));
  }

  /** Extensions 11 and 45 are the point formats and the key exchange modes, a byte each. */
  lemma NumbersElevenAndFortyFive(exts: seq<Extension>, i: nat, bs: seq<byte>)
    requires |bs| < 256
    ensures SaysFirst(exts, 11, i, [|bs|] + bs) ==> PointFormats(exts) == bs
    ensures SaysFirst(exts, 45, i, [|bs|] + bs) ==> PskModes(exts) == bs
    ensures SaysNothing(exts, 11) ==> PointFormats(exts) == []
    ensures SaysNothing(exts, 45) ==> PskModes(exts) == []
  {
    hide First, SaysFirst, SaysNothing, Vector8;
    Whole8(bs);
    FirstIs(exts, 11, i, [|bs|] + bs);
    FirstIs(exts, 45, i, [|bs|] + bs);
  }

  /** Extension 51 says the groups it brings keys for. */
  lemma NumberFiftyOneSaysTheShares(exts: seq<Extension>, i: nat, shares: seq<Share>)
    requires (forall s <- shares :: |s.key| < 65536) && |ShareBytes(shares)| < 65536
    ensures SaysFirst(exts, 51, i, Two(|ShareBytes(shares)|) + ShareBytes(shares)) ==>
              |Shares(exts)| == |shares| && forall k :: 0 <= k < |shares| ==> Shares(exts)[k] == shares[k].group
    ensures SaysNothing(exts, 51) ==> Shares(exts) == []
  {
    hide First, ShareBytes, PutShares, SharesIn, SaysFirst, SaysNothing, Two;
    SharesAre(shares);
    LengthOf(ShareBytes(shares));
    SharesReadBack(shares);
    FirstIs(exts, 51, i, Two(|ShareBytes(shares)|) + ShareBytes(shares));
  }

  /** Extension 16 says the protocols; 17513 the application settings, and 17613 where there is no 17513 whose
      body is a list. */
  lemma NumbersSixteenAndTheSettings(exts: seq<Extension>, i: nat, strings: seq<seq<byte>>, j: nat, bad: seq<byte>)
    requires (forall s <- strings :: |s| < 256) && |StringBytes(strings)| < 65536
    requires |bad| < 2 || |bad| < 2 + 256 * (bad[0] as int) + bad[1] as int
    ensures var body := Two(|StringBytes(strings)|) + StringBytes(strings);
            && (SaysFirst(exts, 16, i, body) ==> Protocols(exts) == strings)
            && (SaysFirst(exts, 17513, i, body) ==> Settings(exts) == strings)
            && (SaysNothing(exts, 17513) && SaysFirst(exts, 17613, i, body) ==> Settings(exts) == strings)
            && (SaysFirst(exts, 17513, j, bad) && SaysFirst(exts, 17613, i, body) ==> Settings(exts) == strings)
    ensures SaysNothing(exts, 16) ==> Protocols(exts) == []
    ensures SaysNothing(exts, 17513) && SaysNothing(exts, 17613) ==> Settings(exts) == []
  {
    assert Vector16(bad).None?;
    hide First, StringBytes, PutStrings, Strings, SaysFirst, SaysNothing, Two, Vector16, Put16Vector;
    var body := Two(|StringBytes(strings)|) + StringBytes(strings);
    StringsAre(strings);
    LengthOf(StringBytes(strings));
    StringsRead(strings);
    Whole16(StringBytes(strings));
    FirstIs(exts, 16, i, body);
    FirstIs(exts, 17513, i, body);
    FirstIs(exts, 17513, j, bad);
    FirstIs(exts, 17613, i, body);
  }

  // --- lists that break off ---

  lemma Regroup<T>(a: seq<T>, b: seq<T>, c: seq<T>, d: seq<T>)
    ensures a + (b + c) + d == a + (b + (c + d))
  {
  }

  lemma OneString(s: seq<byte>, rest: seq<byte>)
    requires |s| < 256
    ensures Strings(Put8Vector(s) + rest) == [s] + Strings(rest)
  {
    hide Vector8, Put8Vector;
    Vector8Put(s, rest);
  }

  lemma {:induction false} StringsBreakOff(strings: seq<seq<byte>>, junk: seq<byte>)
    requires StringsFit(strings) && (junk == [] || junk[0] as int >= |junk|)
    ensures Strings(PutStrings(strings) + junk) == strings
  {
    if strings == [] {
      assert PutStrings(strings) + junk == junk;
    } else {
      hide Strings, Put8Vector;
      StringsBreakOff(strings[1..], junk);
      OneString(strings[0], PutStrings(strings[1..]) + junk);
      Shift(Put8Vector(strings[0]), PutStrings(strings[1..]), junk);
      assert strings == [strings[0]] + strings[1..];
    }
  }

  lemma OneShare(share: Share, rest: seq<byte>)
    requires |share.key| < 65536
    ensures Groups(Put16(share.group) + (Put16Vector(share.key) + rest)) == [share.group] + Groups(rest)
  {
    hide Vector16, Put16Vector;
    Vector16Put(share.key, rest);
    var s := Put16(share.group) + (Put16Vector(share.key) + rest);
    assert s[2..] == Put16Vector(share.key) + rest && s[..2] == Put16(share.group);
    VersionFirst(s, share.group);
  }

  lemma OneName(name: Name, rest: seq<byte>)
    requires |name.name| < 65536 && name.kind != 0
    ensures HostName([name.kind] + (Put16Vector(name.name) + rest)) == HostName(rest)
  {
    hide Vector16, Put16Vector;
    Vector16Put(name.name, rest);
    assert ([name.kind] + (Put16Vector(name.name) + rest))[1..] == Put16Vector(name.name) + rest;
  }

  lemma {:induction false} SharesBreakOff(shares: seq<Share>, junk: seq<byte>)
    requires SharesFit(shares) && (|junk| < 4 || |junk| < 4 + 256 * (junk[2] as int) + junk[3] as int)
    ensures Groups(PutShares(shares) + junk) == GroupsOf(shares)
  {
    if shares == [] {
      assert PutShares(shares) + junk == junk;
    } else {
      hide Groups, Put16Vector, Put16;
      SharesBreakOff(shares[1..], junk);
      OneShare(shares[0], PutShares(shares[1..]) + junk);
      Regroup(Put16(shares[0].group), Put16Vector(shares[0].key), PutShares(shares[1..]), junk);
    }
  }

  lemma {:induction false} NamesBreakOff(names: seq<Name>, junk: seq<byte>)
    requires NamesFit(names) && (forall n <- names :: n.kind != 0)
    requires |junk| < 3 || |junk| < 3 + 256 * (junk[1] as int) + junk[2] as int
    ensures HostName(PutNames(names) + junk) == None
  {
    if names == [] {
      assert PutNames(names) + junk == junk;
    } else {
      hide HostName, Put16Vector;
      assert names[0] in names && forall n <- names[1..] :: n in names;
      NamesBreakOff(names[1..], junk);
      OneName(names[0], PutNames(names[1..]) + junk);
      Regroup([names[0].kind], Put16Vector(names[0].name), PutNames(names[1..]), junk);
    }
  }

  /** A list that breaks off says what came before: the strings, the groups; but a name list that breaks off
      before its first host name says none. */
  lemma WhatABrokenListSays(strings: seq<seq<byte>>, junk8: seq<byte>, shares: seq<Share>, junk16: seq<byte>,
                            names: seq<Name>, junkName: seq<byte>)
    requires (forall s <- strings :: |s| < 256) && (forall s <- shares :: |s.key| < 65536)
    requires forall n <- names :: |n.name| < 65536 && n.kind != 0
    requires junk8 == [] || junk8[0] as int >= |junk8|
    requires |junk16| < 4 || |junk16| < 4 + 256 * (junk16[2] as int) + junk16[3] as int
    requires |junkName| < 3 || |junkName| < 3 + 256 * (junkName[1] as int) + junkName[2] as int
    ensures Strings(StringBytes(strings) + junk8) == strings
    ensures Groups(ShareBytes(shares) + junk16) == GroupsOf(shares)
    ensures HostName(NameBytes(names) + junkName) == None
  {
    StringsAre(strings);
    StringsBreakOff(strings, junk8);
    SharesAre(shares);
    SharesBreakOff(shares, junk16);
    NamesAre(names);
    NamesBreakOff(names, junkName);
    hide Strings, Groups, HostName, PutStrings, PutShares, PutNames;
  }

  /** A list of 16-bit values of odd length, or longer than its body, says nothing. */
  lemma WhatASpoiltListSays(data: seq<byte>)
    ensures (|data| >= 2 && 256 * (data[0] as int) + data[1] as int <= |data| - 2 && data[1] % 2 == 1) ==>
              Words16In(data) == []
    ensures (|data| < 2 || 256 * (data[0] as int) + data[1] as int > |data| - 2) ==> Words16In(data) == []
    ensures (data == [] || data[0] as int > |data| - 1 || data[0] % 2 == 1) ==> Words8In(data) == []
  {
    if |data| >= 2 && 256 * (data[0] as int) + data[1] as int <= |data| - 2 {
      assert |Vector16(data).value.value| == 256 * (data[0] as int) + data[1] as int;
    }
  }
}
