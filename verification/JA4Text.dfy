/** The fingerprint as text: what a reader can take from each of its characters. */
module JA4Text {
  import opened Common
  import opened Bytes
  import opened ClientHello
  import opened Accessors
  import opened Sorting
  import opened JA4
  import opened Redraw

  // ---------------------------------------------------------------------------------------------
  // Characters.

  predicate IsDecimal(c: char) {
    '0' <= c <= '9'
  }

  /** A hexadecimal digit in lower case, and what it is worth. */
  predicate IsHex(c: char, value: int) {
    HexValue(c) == value >= 0
  }

  function HexValue(c: char): int {
    if '0' <= c <= '9' then c as int - '0' as int
    else if 'a' <= c <= 'f' then 10 + (c as int - 'a' as int)
    else -1
  }

  /** Two decimal digits that read as this number, or as 99 for all that need more. */
  predicate ReadsAs(tens: char, ones: char, n: nat) {
    && IsDecimal(tens) && IsDecimal(ones)
    && 10 * (tens as int - '0' as int) + (ones as int - '0' as int) == if n <= 99 then n else 99
  }

  predicate IsLetterOrDigit(b: byte) {
    48 <= b <= 57 || 65 <= b <= 90 || 97 <= b <= 122
  }

  lemma CountReads(n: nat)
    ensures ReadsAs(CountTo99(n)[0], CountTo99(n)[1], n)
  {
  }

  /** The version a hello would settle on: the highest it offers, reserved values aside, or, when it offers none,
      the one in its legacy field. */
  ghost predicate SettlesOn(h: Hello, v: uint16) {
    var offered := Versions(h.extensions);
    if exists w :: w in offered && !IsGREASE(w) && w > 0 then
      v in offered && !IsGREASE(v) && forall w :: w in offered && !IsGREASE(w) ==> w <= v
    else v == h.legacyVersion
  }

  lemma {:induction false} HighestIs(vs: seq<uint16>)
    ensures forall v <- vs :: v <= Highest(vs)
    ensures Highest(vs) == 0 || Highest(vs) in vs
  {
    if vs != [] {
      HighestIs(vs[..|vs| - 1]);
      assert vs == vs[..|vs| - 1] + [vs[|vs| - 1]];
    }
  }

  lemma WithoutHas(vs: seq<uint16>, v: uint16)
    ensures v in Without(vs) <==> v in vs && !IsGREASE(v)
  {
    hide Without, IsGREASE;
    WithoutCounts(vs, v);
    assert v in Without(vs) <==> v in multiset(Without(vs));
    assert v in vs <==> v in multiset(vs);
  }

  /** There is always exactly one. */
  lemma SettledIs(h: Hello, v: uint16)
    ensures SettlesOn(h, v) <==> NegotiableVersion(h) == v
  {
    hide Without, IsGREASE, Highest, Versions;
    var offered := Versions(h.extensions);
    var best := Highest(Without(offered));
    HighestIs(Without(offered));
    forall w: uint16
      ensures w in Without(offered) <==> w in offered && !IsGREASE(w)
    {
      WithoutHas(offered, w);
    }
    assert best > 0 ==> best in offered && !IsGREASE(best);
  }

  /** What the two characters of a version are. */
  predicate NamesVersion(name: string, v: uint16) {
    && (v == 0x0304 ==> name == "13") && (v == 0x0303 ==> name == "12")
    && (v == 0x0302 ==> name == "11") && (v == 0x0301 ==> name == "10")
    && (v == 0x0300 ==> name == "s3") && (v == 0x0002 ==> name == "s2")
    && (v !in {0x0304, 0x0303, 0x0302, 0x0301, 0x0300, 0x0002} ==> name == "00")
  }

  /** What the two characters of the protocols are: the ends of the first of them. */
  predicate NamesProtocol(first: char, last: char, protocols: seq<seq<byte>>) {
    if protocols == [] || protocols[0] == [] then first == '0' && last == '0'
    else
      var head, tail := protocols[0][0], protocols[0][|protocols[0]| - 1];
      if IsLetterOrDigit(head) && IsLetterOrDigit(tail) then first as int == head && last as int == tail
      else IsHex(first, head / 16) && IsHex(last, tail % 16)
  }

  lemma EndsAre(protocols: seq<seq<byte>>)
    ensures NamesProtocol(ProtocolEnds(protocols)[0], ProtocolEnds(protocols)[1], protocols)
  {
  }

  lemma PrefixIs(h: Hello, v: uint16)
    requires SettlesOn(h, v)
    ensures var p := Prefix(h);
            && p[0] == 't' && NamesVersion(p[1..3], v)
            && p[3] == (if ServerName(h.extensions).Some? then 'd' else 'i')
            && ReadsAs(p[4], p[5], |Without(h.cipherSuites)|)
            && ReadsAs(p[6], p[7], |Without(Types(h.extensions))|)
            && NamesProtocol(p[8], p[9], Protocols(h.extensions))
  {
    hide SettlesOn, NamesProtocol, ReadsAs, ProtocolEnds, CountTo99, Without, ServerName, Protocols, NegotiableVersion;
    SettledIs(h, v);
    CountReads(|Without(h.cipherSuites)|);
    CountReads(|Without(Types(h.extensions))|);
    EndsAre(Protocols(h.extensions));
    assert Prefix(h)[1..3] == VersionName(v);
  }

  lemma BeginsWith(p: string, rest: string)
    requires |p| == 10
    ensures (p + rest)[..10] == p && (p + rest)[1..3] == p[1..3]
    ensures forall i :: 0 <= i < 10 ==> (p + rest)[i] == p[i]
  {
  }

  lemma BothBeginAlike(h: Hello, hash: string -> string)
    ensures |Raw(h)| >= 10 && |Hashes(h, hash)| >= 10
    ensures Raw(h)[..10] == Hashes(h, hash)[..10] == Prefix(h)
    ensures Raw(h)[1..3] == Prefix(h)[1..3] && forall i :: 0 <= i < 10 ==> Raw(h)[i] == Prefix(h)[i]
  {
    hide Prefix, JoinHexSorted, ExtensionInput, Without;
    var c, t := JoinHexSorted(Without(h.cipherSuites)), ExtensionInput(h);
    var hashed := "_" + (if c != "" then hash(c) else EMPTY_SECTION) + "_" + (if t != "" then hash(t) else EMPTY_SECTION);
    assert Raw(h) == Prefix(h) + ("_" + c + "_" + t);
    assert Hashes(h, hash) == Prefix(h) + hashed;
    BeginsWith(Prefix(h), "_" + c + "_" + t);
    BeginsWith(Prefix(h), hashed);
  }

  /** The readable third, character by character: 't'; the version; whether there is a host name; the numbers of
      ciphers and of extensions, reserved values aside; the ends of the first protocol. It is the same in the
      raw and in the hashed form. */
  lemma TheReadableThird(h: Hello, v: uint16, hash: string -> string)
    requires SettlesOn(h, v)
    ensures |Raw(h)| >= 10 && |Hashes(h, hash)| >= 10 && Raw(h)[..10] == Hashes(h, hash)[..10]
    ensures var r := Raw(h);
            && r[0] == 't' && NamesVersion(r[1..3], v)
            && r[3] == (if ServerName(h.extensions).Some? then 'd' else 'i')
            && ReadsAs(r[4], r[5], |Without(h.cipherSuites)|)
            && ReadsAs(r[6], r[7], |Without(Types(h.extensions))|)
            && NamesProtocol(r[8], r[9], Protocols(h.extensions))
  {
    PrefixIs(h, v);
    BothBeginAlike(h, hash);
    hide *;
  }

  // ---------------------------------------------------------------------------------------------
  // Lists.

  /** Four hexadecimal digits that are worth this value. */
  predicate IsFourHex(s: string, v: uint16) {
    && |s| == 4
    && (forall i :: 0 <= i < 4 ==> HexValue(s[i]) >= 0)
    && v == 4096 * HexValue(s[0]) + 256 * HexValue(s[1]) + 16 * HexValue(s[2]) + HexValue(s[3])
  }

  /** Values of four digits each, with a comma between any two. */
  predicate IsListOf(s: string, vs: seq<uint16>) {
    && |s| == (if vs == [] then 0 else 5 * |vs| - 1)
    && (forall i :: 0 <= i < |vs| ==> IsFourHex(s[5 * i..5 * i + 4], vs[i]))
    && (forall i :: 0 <= i < |vs| - 1 ==> s[5 * i + 4] == ',')
  }

  lemma HexDigitIs(d: int)
    requires 0 <= d < 16
    ensures HexValue(HexDigit(d)) == d
  {
  }

  lemma Hex4Is(v: uint16)
    ensures IsFourHex(Hex4(v), v)
  {
    hide HexDigit, HexValue;
    Nibbles(v);
    HexDigitIs(v / 4096);
    HexDigitIs(v / 256 % 16);
    HexDigitIs(v / 16 % 16);
    HexDigitIs(v % 16);
  }

  lemma {:induction false} JoinHexLists(vs: seq<uint16>)
    ensures IsListOf(JoinHex(vs), vs)
  {
    hide Hex4, IsFourHex;
    JoinHexIsHex(vs);
    if vs != [] {
      var m := |vs| - 1;
      Hex4Is(vs[m]);
      JoinHexIsHex(vs[..m]);
      JoinHexLists(vs[..m]);
      var s, front := JoinHex(vs), JoinHex(vs[..m]);
      if m == 0 {
        assert s[0..4] == Hex4(vs[0]);
      } else {
        assert s == front + "," + Hex4(vs[m]);
        assert s[5 * m..5 * m + 4] == Hex4(vs[m]);
        forall i | 0 <= i < m
          ensures IsFourHex(s[5 * i..5 * i + 4], vs[i])
          ensures s[5 * i + 4] == ','
        {
          assert s[5 * i..5 * i + 4] == front[5 * i..5 * i + 4] && vs[..m][i] == vs[i];
        }
      }
    }
  }

  predicate Ascending(vs: seq<uint16>) {
    forall i, j :: 0 <= i < j < |vs| ==> vs[i] <= vs[j]
  }

  lemma SortAscends(vs: seq<uint16>)
    ensures Ascending(Sort(WordLe, vs)) && multiset(Sort(WordLe, vs)) == multiset(vs)
    ensures Sort(WordLe, vs) == [] <==> vs == []
  {
    WordLeIsTotal();
    SortSorts(WordLe, vs);
    hide Sort;
    var s := Sort(WordLe, vs);
    forall i, j | 0 <= i < j < |s|
      ensures s[i] <= s[j]
    {
      assert WordLe(s[i], s[j]);
    }
  }

  /** The order of what is not reserved is kept. */
  lemma {:induction false} WithoutConcat(a: seq<uint16>, b: seq<uint16>)
    ensures Without(a + b) == Without(a) + Without(b)
  {
    hide IsGREASE;
    if b == [] {
      assert a + b == a;
    } else {
      var n := |b| - 1;
      assert (a + b)[..|a + b| - 1] == a + b[..n];
      WithoutConcat(a, b[..n]);
    }
  }

  /** How often a type is among those hashed: neither reserved ones, nor 0 and 16. */
  lemma HashedCounts(h: Hello, t: uint16)
    ensures multiset(Hashed(h))[t] == if IsGREASE(t) || t == 0 || t == 16 then 0
                                      else multiset(Types(h.extensions))[t]
  {
    hide Kept, Without, IsGREASE, Types;
    KeptCounts(Without(Types(h.extensions)), t);
    WithoutCounts(Types(h.extensions), t);
  }

  /** The rest of the raw form, and what is hashed of it: the ciphers in ascending order; the extension types in
      ascending order, but for those of the host name and of the protocols; and behind these, where there are
      any, the signature algorithms as the hello orders them. Twelve zeros stand for a section of nothing. */
  lemma TheListedThirds(h: Hello, hash: string -> string)
    returns (ciphers: seq<uint16>, types: seq<uint16>, c: string, t: string, s: string)
    ensures Ascending(ciphers) && multiset(ciphers) == multiset(Without(h.cipherSuites)) && IsListOf(c, ciphers)
    ensures Ascending(types) && IsListOf(t, types)
    ensures forall x: uint16 :: multiset(types)[x] ==
              if IsGREASE(x) || x == 0 || x == 16 then 0 else multiset(Types(h.extensions))[x]
    ensures IsListOf(s, Without(Signatures(h.extensions)))
    ensures var tail := if s == "" then t else t + "_" + s;
            && |Raw(h)| >= 10 && Raw(h) == Raw(h)[..10] + "_" + c + "_" + tail
            && Hashes(h, hash) == Raw(h)[..10] + "_" + (if c == "" then "000000000000" else hash(c))
                                  + "_" + (if tail == "" then "000000000000" else hash(tail))
  {
    hide Without, Hashed, JoinHex, Signatures, Prefix, IsListOf, Types, Sort, IsGREASE;
    ciphers, types := Sort(WordLe, Without(h.cipherSuites)), Sort(WordLe, Hashed(h));
    c, t, s := JoinHex(ciphers), JoinHex(types), JoinHex(Without(Signatures(h.extensions)));
    SortAscends(Without(h.cipherSuites));
    SortAscends(Hashed(h));
    JoinHexLists(ciphers);
    JoinHexLists(types);
    JoinHexLists(Without(Signatures(h.extensions)));
    forall x: uint16
      ensures multiset(types)[x] ==
              if IsGREASE(x) || x == 0 || x == 16 then 0 else multiset(Types(h.extensions))[x]
    {
      HashedCounts(h, x);
    }
    var tail := ExtensionInput(h);
    assert Raw(h) == Prefix(h) + ("_" + c + "_" + tail);
    assert Raw(h)[..10] == Prefix(h);
  }
}
