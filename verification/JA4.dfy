/** The JA4 fingerprint in its readable form, and what exactly it can and cannot tell apart. */
module JA4 {
  import opened Common
  import opened Bytes
  import opened ClientHello
  import opened Accessors
  import opened Sorting

  // ---------------------------------------------------------------------------------------------
  // GREASE.

  /** Both bytes are equal and end in the nibble 0xa. */
  predicate IsGREASE(v: uint16) {
    v % 16 == 10 && v / 256 % 16 == 10 && v / 256 == v % 256
  }

  predicate IsReserved(k: int, v: uint16) {
    0 <= k < 16 && v == 0x0a0a + k * 0x1010
  }

  lemma ReservedAreGREASE(k: int, v: uint16)
    requires IsReserved(k, v)
    ensures IsGREASE(v)
  {
    var b := 16 * k + 10;
    assert v == 256 * b + b && 0 <= b < 256;
    assert v / 256 == b && v % 256 == b;
  }

  lemma GREASEIsReserved(v: uint16)
    requires IsGREASE(v)
    ensures IsReserved(v / 256 / 16, v)
  {
    var b := v / 256;
    assert v == 256 * b + b && b == 16 * (b / 16) + 10;
  }

  /** Exactly the sixteen values section 2 of RFC 8701 reserves. */
  lemma TheSixteenValues(v: uint16)
    ensures IsGREASE(v) <==> exists k :: IsReserved(k, v)
  {
    hide IsGREASE, IsReserved;
    if IsGREASE(v) {
      GREASEIsReserved(v);
    }
    if k :| IsReserved(k, v) {
      ReservedAreGREASE(k, v);
    }
  }

  function Without(vs: seq<uint16>): seq<uint16> {
    if vs == [] then []
    else Without(vs[..|vs| - 1]) + (if IsGREASE(vs[|vs| - 1]) then [] else [vs[|vs| - 1]])
  }

  method WithoutGREASE(values: seq<uint16>) returns (out: seq<uint16>)
    ensures out == Without(values)
  {
    out := [];
    for i := 0 to |values|
      invariant out == Without(values[..i])
    {
      assert values[..i + 1][..i] == values[..i];
      if !IsGREASE(values[i]) {
        out := out + [values[i]];
      }
    }
    assert values[..|values|] == values;
  }

  lemma WithoutSnoc(vs: seq<uint16>, last: uint16)
    ensures Without([]) == []
    ensures Without(vs + [last]) == Without(vs) + (if IsGREASE(last) then [] else [last])
  {
    assert (vs + [last])[..|vs|] == vs;
  }

  lemma {:induction false} WithoutCounts(vs: seq<uint16>, v: uint16)
    ensures multiset(Without(vs))[v] == if IsGREASE(v) then 0 else multiset(vs)[v]
  {
    hide IsGREASE, Without;
    if vs == [] {
      WithoutSnoc([], v);
    } else {
      var front, last := vs[..|vs| - 1], vs[|vs| - 1];
      assert vs == front + [last];
      WithoutCounts(front, v);
      WithoutSnoc(front, last);
    }
  }

  /** Place by place the same value, or a reserved one both times. */
  predicate Redrawn(vs: seq<uint16>, ws: seq<uint16>) {
    && |vs| == |ws|
    && forall i :: 0 <= i < |vs| ==> vs[i] == ws[i] || (IsGREASE(vs[i]) && IsGREASE(ws[i]))
  }

  lemma {:induction false} RedrawKeepsTheRest(vs: seq<uint16>, ws: seq<uint16>)
    requires Redrawn(vs, ws)
    ensures Without(vs) == Without(ws)
  {
    hide IsGREASE;
    if vs != [] {
      RedrawKeepsTheRest(vs[..|vs| - 1], ws[..|ws| - 1]);
    }
  }

  // ---------------------------------------------------------------------------------------------
  // The parts.

  function HexDigit(d: int): char
    requires 0 <= d < 16
  {
    if d < 10 then ('0' as int + d) as char else ('a' as int + d - 10) as char
  }

  function Hex4(v: uint16): (s: string)
    ensures |s| == 4
  {
    [HexDigit(v / 4096), HexDigit(v / 256 % 16), HexDigit(v / 16 % 16), HexDigit(v % 16)]
  }

  function JoinHex(vs: seq<uint16>): string {
    if vs == [] then ""
    else if |vs| == 1 then Hex4(vs[0])
    else JoinHex(vs[..|vs| - 1]) + "," + Hex4(vs[|vs| - 1])
  }

  function Highest(vs: seq<uint16>): uint16 {
    if vs == [] then 0
    else
      var best := Highest(vs[..|vs| - 1]);
      if vs[|vs| - 1] > best then vs[|vs| - 1] else best
  }

  function NegotiableVersion(hello: Hello): uint16 {
    var best := Highest(Without(Versions(hello.extensions)));
    if best != 0 then best else hello.legacyVersion
  }

  method ReadNegotiableVersion(hello: Hello, versions: seq<uint16>) returns (best: uint16)
    requires versions == Versions(hello.extensions)
    ensures best == NegotiableVersion(hello)
    ensures forall v :: v in versions && !IsGREASE(v) ==> best >= v
    ensures (best in versions && !IsGREASE(best)) || best == hello.legacyVersion
  {
    hide IsGREASE;
    best := 0;
    var kept := WithoutGREASE(versions);
    for i := 0 to |kept|
      invariant best == Highest(kept[..i])
      invariant i <= |kept|
      invariant forall v :: v in kept[..i] ==> best >= v
      invariant best == 0 || best in kept
    {
      assert kept[..i + 1][..i] == kept[..i] && kept[..i + 1] == kept[..i] + [kept[i]];
      if kept[i] > best {
        best := kept[i];
      }
    }
    assert kept[..|kept|] == kept;
    forall v: uint16
      ensures v in kept <==> v in versions && !IsGREASE(v)
    {
      WithoutCounts(versions, v);
      assert v in kept <==> v in multiset(kept);
      assert v in versions <==> v in multiset(versions);
    }
    if best != 0 {
      return;
    }
    best := hello.legacyVersion;
  }

  function VersionName(v: uint16): (s: string)
    ensures |s| == 2
  {
    match v
    case 0x0304 => "13"
    case 0x0303 => "12"
    case 0x0302 => "11"
    case 0x0301 => "10"
    case 0x0300 => "s3"
    case 0x0002 => "s2"
    case _ => "00"
  }

  predicate IsAlphanumeric(b: byte) {
    '0' as int <= b <= '9' as int || 'a' as int <= b <= 'z' as int || 'A' as int <= b <= 'Z' as int
  }

  /** First and last character of the first protocol, or outer hex digits where either is no letter or
      digit. */
  function ProtocolEnds(protocols: seq<seq<byte>>): (s: string)
    ensures |s| == 2
  {
    if protocols == [] || protocols[0] == [] then "00"
    else
      var head, tail := protocols[0][0], protocols[0][|protocols[0]| - 1];
      if IsAlphanumeric(head) && IsAlphanumeric(tail) then [head as char, tail as char]
      else [HexDigit(head / 16), HexDigit(tail % 16)]
  }

  function CountTo99(n: nat): (s: string)
    ensures |s| == 2
  {
    var m := if n > 99 then 99 else n;
    [HexDigit(m / 10), HexDigit(m % 10)]
  }

  function Prefix(hello: Hello): (s: string)
    ensures |s| == 10
  {
    "t" + VersionName(NegotiableVersion(hello)) +
    (if ServerName(hello.extensions).Some? then "d" else "i") +
    CountTo99(|Without(hello.cipherSuites)|) + CountTo99(|Without(Types(hello.extensions))|) +
    ProtocolEnds(Protocols(hello.extensions))
  }

  function Kept(types: seq<uint16>): seq<uint16> {
    if types == [] then []
    else
      var last := types[|types| - 1];
      Kept(types[..|types| - 1]) + (if last == SERVER_NAME || last == ALPN then [] else [last])
  }

  /** The extension types that are hashed: neither GREASE, nor server name, nor ALPN. */
  function Hashed(hello: Hello): seq<uint16> {
    Kept(Without(Types(hello.extensions)))
  }

  predicate WordLe(v: uint16, w: uint16) {
    v <= w
  }

  lemma WordLeIsTotal()
    ensures TotalOrder(WordLe)
  {
  }

  function JoinHexSorted(vs: seq<uint16>): string {
    JoinHex(Sort(WordLe, vs))
  }

  function ExtensionInput(hello: Hello): string {
    var exts, sigs := JoinHexSorted(Hashed(hello)), JoinHex(Without(Signatures(hello.extensions)));
    if sigs != "" then exts + "_" + sigs else exts
  }

  function Raw(hello: Hello): string {
    Prefix(hello) + "_" + JoinHexSorted(Without(hello.cipherSuites)) + "_" + ExtensionInput(hello)
  }

  const EMPTY_SECTION := "000000000000"

  /** The hashed form, for whatever truncated hash. */
  function Hashes(hello: Hello, hash: string -> string): string {
    var ciphers, exts := JoinHexSorted(Without(hello.cipherSuites)), ExtensionInput(hello);
    Prefix(hello) + "_" + (if ciphers != "" then hash(ciphers) else EMPTY_SECTION) +
    "_" + (if exts != "" then hash(exts) else EMPTY_SECTION)
  }

  method ReadJoinHex(values: seq<uint16>) returns (s: string)
    ensures s == JoinHex(values)
  {
    var parts: seq<string> := [];
    for i := 0 to |values|
      invariant |parts| == i && forall j :: 0 <= j < i ==> parts[j] == Hex4(values[j])
    {
      parts := parts + [Hex4(values[i])];
    }
    s := "";
    for i := 0 to |parts|
      invariant s == JoinHex(values[..i])
    {
      assert values[..i + 1][..i] == values[..i];
      s := if i == 0 then parts[i] else s + "," + parts[i];
    }
    assert values[..|values|] == values;
  }

  method ReadExtensions(hello: Hello) returns (s: string)
    ensures s == JoinHexSorted(Hashed(hello))
  {
    var types := ExtensionTypes(hello);
    var meaningful := WithoutGREASE(types);
    var kept: seq<uint16> := [];
    for i := 0 to |meaningful|
      invariant kept == Kept(meaningful[..i])
    {
      assert meaningful[..i + 1][..i] == meaningful[..i];
      if meaningful[i] == SERVER_NAME || meaningful[i] == ALPN {
        continue;
      }
      kept := kept + [meaningful[i]];
    }
    assert meaningful[..|meaningful|] == meaningful;
    s := ReadJoinHex(Sort(WordLe, kept));
  }

  // ---------------------------------------------------------------------------------------------
  // The raw form can be read back.

  predicate IsHexList(s: string) {
    forall c <- s :: c != '_'
  }

  lemma HexDigitInjective(c: int, d: int)
    requires 0 <= c < 16 && 0 <= d < 16 && HexDigit(c) == HexDigit(d)
    ensures c == d
  {
  }

  lemma Hex4Injective(v: uint16, w: uint16)
    requires Hex4(v) == Hex4(w)
    ensures v == w
  {
    hide HexDigit;
    var a, b := Hex4(v), Hex4(w);
    assert a[0] == b[0] && a[1] == b[1] && a[2] == b[2] && a[3] == b[3];
    HexDigitInjective(v / 4096, w / 4096);
    HexDigitInjective(v / 256 % 16, w / 256 % 16);
    HexDigitInjective(v / 16 % 16, w / 16 % 16);
    HexDigitInjective(v % 16, w % 16);
    Nibbles(v);
    Nibbles(w);
  }

  lemma Nibbles(v: uint16)
    ensures v == v / 4096 * 4096 + v / 256 % 16 * 256 + v / 16 % 16 * 16 + v % 16
  {
    assert v / 256 / 16 == v / 4096;
    assert v / 16 / 16 == v / 256;
    assert v / 256 == v / 4096 * 16 + v / 256 % 16;
    assert v / 16 == v / 256 * 16 + v / 16 % 16;
  }

  lemma Hex4IsHex(v: uint16)
    ensures IsHexList(Hex4(v))
  {
  }

  lemma {:induction false} JoinHexIsHex(vs: seq<uint16>)
    ensures IsHexList(JoinHex(vs))
    ensures |JoinHex(vs)| == if vs == [] then 0 else 5 * |vs| - 1
  {
    hide Hex4;
    if vs != [] {
      Hex4IsHex(vs[|vs| - 1]);
      JoinHexIsHex(vs[..|vs| - 1]);
    }
  }

  lemma SameEnds<T>(a: seq<T>, x: seq<T>, b: seq<T>, y: seq<T>)
    requires a + x == b + y && |a| == |b|
    ensures a == b && x == y
  {
    assert a == (a + x)[..|a|] && b == (b + y)[..|b|];
    assert x == (a + x)[|a|..] && y == (b + y)[|b|..];
  }

  lemma {:induction false} JoinHexInjective(vs: seq<uint16>, ws: seq<uint16>)
    requires JoinHex(vs) == JoinHex(ws)
    ensures vs == ws
  {
    hide Hex4;
    JoinHexIsHex(vs);
    JoinHexIsHex(ws);
    assert |vs| == |ws|;
    if vs != [] {
      var m := |vs| - 1;
      if m == 0 {
        Hex4Injective(vs[0], ws[0]);
      } else {
        JoinHexIsHex(vs[..m]);
        JoinHexIsHex(ws[..m]);
        var a, b := JoinHex(vs[..m]), JoinHex(ws[..m]);
        assert a + ("," + Hex4(vs[m])) == JoinHex(vs) && b + ("," + Hex4(ws[m])) == JoinHex(ws);
        SameEnds(a, "," + Hex4(vs[m]), b, "," + Hex4(ws[m]));
        SameEnds(",", Hex4(vs[m]), ",", Hex4(ws[m]));
        Hex4Injective(vs[m], ws[m]);
        JoinHexInjective(vs[..m], ws[..m]);
      }
      assert vs == vs[..m] + [vs[m]] && ws == ws[..m] + [ws[m]];
    }
  }

  lemma NoUnderscoreBefore(b: string, y: string, i: nat)
    requires IsHexList(b) && i < |b|
    ensures (b + "_" + y)[i] != '_'
  {
    assert (b + "_" + y)[i] == b[i] && b[i] in b;
  }

  lemma NotShorter(a: string, x: string, b: string, y: string)
    requires IsHexList(b) && a + "_" + x == b + "_" + y
    ensures |a| >= |b|
  {
    assert (a + "_" + x)[|a|] == '_';
    if |a| < |b| {
      NoUnderscoreBefore(b, y, |a|);
    }
  }

  /** What stands before the first underscore is determined by the whole. */
  lemma SameUpToUnderscore(a: string, x: string, b: string, y: string)
    requires IsHexList(a) && IsHexList(b) && a + "_" + x == b + "_" + y
    ensures a == b && x == y
  {
    NotShorter(a, x, b, y);
    NotShorter(b, y, a, x);
    assert a + ("_" + x) == a + "_" + x && b + ("_" + y) == b + "_" + y;
    SameEnds(a, "_" + x, b, "_" + y);
    SameEnds("_", x, "_", y);
  }

  lemma SameExtensionInput(a: seq<uint16>, s: seq<uint16>, b: seq<uint16>, t: seq<uint16>)
    ensures (var x, y := JoinHex(s), JoinHex(t);
             (if x != "" then JoinHex(a) + "_" + x else JoinHex(a)) ==
             (if y != "" then JoinHex(b) + "_" + y else JoinHex(b))) <==> a == b && s == t
  {
    JoinHexIsHex(a);
    JoinHexIsHex(b);
    JoinHexIsHex(s);
    JoinHexIsHex(t);
    hide JoinHex;
    var x, y := JoinHex(s), JoinHex(t);
    if (if x != "" then JoinHex(a) + "_" + x else JoinHex(a)) ==
       (if y != "" then JoinHex(b) + "_" + y else JoinHex(b)) {
      if x != "" && y != "" {
        SameUpToUnderscore(JoinHex(a), x, JoinHex(b), y);
      } else if x != "" {
        HasUnderscore(JoinHex(a), x);
      } else if y != "" {
        HasUnderscore(JoinHex(b), y);
      }
      JoinHexInjective(a, b);
      JoinHexInjective(s, t);
    }
  }

  lemma HasUnderscore(a: string, x: string)
    ensures !IsHexList(a + "_" + x)
  {
    var s := a + "_" + x;
    assert s[|a|] == '_';
    assert s[|a|] in s;
  }

  lemma SortedHexIsCanonical(vs: seq<uint16>, ws: seq<uint16>)
    ensures JoinHexSorted(vs) == JoinHexSorted(ws) <==> multiset(vs) == multiset(ws)
    ensures Sort(WordLe, vs) == Sort(WordLe, ws) <==> multiset(vs) == multiset(ws)
  {
    WordLeIsTotal();
    SortIsCanonical(WordLe, vs, ws);
    if JoinHexSorted(vs) == JoinHexSorted(ws) {
      JoinHexInjective(Sort(WordLe, vs), Sort(WordLe, ws));
    }
  }

  /** Two hellos have the same raw JA4 exactly when they agree on the prefix, on the multiset of ciphers, on
      the multiset of hashed extensions, and on the signature algorithms in order. */
  lemma RawIsCanonical(a: Hello, b: Hello)
    ensures Raw(a) == Raw(b) <==>
            && Prefix(a) == Prefix(b)
            && multiset(Without(a.cipherSuites)) == multiset(Without(b.cipherSuites))
            && multiset(Hashed(a)) == multiset(Hashed(b))
            && Without(Signatures(a.extensions)) == Without(Signatures(b.extensions))
  {
    hide Prefix, Without, Hashed, JoinHex, Sort, Signatures;
    var c, d := JoinHexSorted(Without(a.cipherSuites)), JoinHexSorted(Without(b.cipherSuites));
    SortedHexIsCanonical(Without(a.cipherSuites), Without(b.cipherSuites));
    SortedHexIsCanonical(Hashed(a), Hashed(b));
    SameExtensionInput(Sort(WordLe, Hashed(a)), Without(Signatures(a.extensions)),
                       Sort(WordLe, Hashed(b)), Without(Signatures(b.extensions)));
    JoinHexIsHex(Sort(WordLe, Without(a.cipherSuites)));
    JoinHexIsHex(Sort(WordLe, Without(b.cipherSuites)));
    var e, f := ExtensionInput(a), ExtensionInput(b);
    if Raw(a) == Raw(b) {
      assert Raw(a) == Prefix(a) + ("_" + (c + "_" + e));
      assert Raw(b) == Prefix(b) + ("_" + (d + "_" + f));
      SameEnds(Prefix(a), "_" + (c + "_" + e), Prefix(b), "_" + (d + "_" + f));
      SameEnds("_", c + "_" + e, "_", d + "_" + f);
      SameUpToUnderscore(c, e, d, f);
    }
  }
}
