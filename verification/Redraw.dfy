/** What a browser does to its own hello between two connections, down to the bytes, and why JA4 does not see
    it: extensions change places, reserved values and keys are drawn afresh. */
module Redraw {
  import opened Common
  import opened Bytes
  import opened ClientHello
  import opened Accessors
  import opened JA4

  function OfKind(exts: seq<Extension>, kind: uint16): seq<seq<byte>> {
    if exts == [] then []
    else (if exts[0].kind == kind then [exts[0].data] else []) + OfKind(exts[1..], kind)
  }

  /** The bodies in which a browser draws reserved values, before and after: lists of 16-bit values behind a
      length of one or two bytes, and key shares, whose keys are fresh as well. */
  ghost predicate List8Redrawn(x: seq<byte>, y: seq<byte>) {
    exists vs, ws :: Redrawn(vs, ws) && 2 * |vs| < 256 &&
                     x == Put8Vector(PutWords(vs)) && y == Put8Vector(PutWords(ws))
  }

  ghost predicate List16Redrawn(x: seq<byte>, y: seq<byte>) {
    exists vs, ws :: Redrawn(vs, ws) && 2 * |vs| < 0x1_0000 &&
                     x == Put16Vector(PutWords(vs)) && y == Put16Vector(PutWords(ws))
  }

  predicate IsShareBody(shares: seq<Share>, data: seq<byte>) {
    SharesFit(shares) && |PutShares(shares)| < 0x1_0000 && data == Put16Vector(PutShares(shares))
  }

  ghost predicate SharesRedrawn(x: seq<byte>, y: seq<byte>) {
    exists ss, ts :: Redrawn(GroupsOf(ss), GroupsOf(ts)) && IsShareBody(ss, x) && IsShareBody(ts, y)
  }

  /** The body of one extension of two connections of one browser. */
  ghost predicate BodyRedrawn(kind: uint16, x: seq<byte>, y: seq<byte>) {
    || x == y
    || (kind == SUPPORTED_VERSIONS && List8Redrawn(x, y))
    || ((kind == SUPPORTED_GROUPS || kind == SIGNATURE_ALGORITHMS) && List16Redrawn(x, y))
    || (kind == KEY_SHARE && SharesRedrawn(x, y))
  }

  lemma List8Says(vs: seq<uint16>, ws: seq<uint16>)
    requires Redrawn(vs, ws) && 2 * |vs| < 256
    ensures Without(Words8In(Put8Vector(PutWords(vs)))) == Without(Words8In(Put8Vector(PutWords(ws))))
  {
    hide Without, Words8In, Put8Vector, PutWords;
    Words8ReadBack(vs);
    Words8ReadBack(ws);
    RedrawKeepsTheRest(vs, ws);
  }

  lemma List8SaysTheSame(x: seq<byte>, y: seq<byte>)
    requires List8Redrawn(x, y)
    ensures Without(Words8In(x)) == Without(Words8In(y))
  {
    hide Without, Words8In, Put8Vector, PutWords;
    var vs, ws :| Redrawn(vs, ws) && 2 * |vs| < 256 && x == Put8Vector(PutWords(vs)) && y == Put8Vector(PutWords(ws));
    List8Says(vs, ws);
  }

  lemma List16Says(vs: seq<uint16>, ws: seq<uint16>)
    requires Redrawn(vs, ws) && 2 * |vs| < 0x1_0000
    ensures Without(Words16In(Put16Vector(PutWords(vs)))) == Without(Words16In(Put16Vector(PutWords(ws))))
  {
    hide Without, Words16In, Put16Vector, PutWords;
    Words16ReadBack(vs);
    Words16ReadBack(ws);
    RedrawKeepsTheRest(vs, ws);
  }

  lemma List16SaysTheSame(x: seq<byte>, y: seq<byte>)
    requires List16Redrawn(x, y)
    ensures Without(Words16In(x)) == Without(Words16In(y))
  {
    hide Without, Words16In, Put16Vector, PutWords;
    var vs, ws :| Redrawn(vs, ws) && 2 * |vs| < 0x1_0000 &&
                  x == Put16Vector(PutWords(vs)) && y == Put16Vector(PutWords(ws));
    List16Says(vs, ws);
  }

  lemma SharesSayTheSame(x: seq<byte>, y: seq<byte>)
    requires SharesRedrawn(x, y)
    ensures Without(SharesIn(x)) == Without(SharesIn(y))
  {
    hide Redrawn, Without, SharesIn, Put16Vector, PutShares, SharesFit;
    var ss, ts :| Redrawn(GroupsOf(ss), GroupsOf(ts)) && IsShareBody(ss, x) && IsShareBody(ts, y);
    SharesReadBack(ss);
    SharesReadBack(ts);
    RedrawKeepsTheRest(GroupsOf(ss), GroupsOf(ts));
  }

  /** A redrawn body says the same: exactly, or up to the reserved values where they are drawn. */
  lemma RedrawnBodySays(kind: uint16, x: seq<byte>, y: seq<byte>)
    requires BodyRedrawn(kind, x, y)
    ensures x == y || kind in {SUPPORTED_VERSIONS, SUPPORTED_GROUPS, SIGNATURE_ALGORITHMS, KEY_SHARE}
    ensures kind == SUPPORTED_VERSIONS ==> Without(Words8In(x)) == Without(Words8In(y))
    ensures kind == SUPPORTED_GROUPS || kind == SIGNATURE_ALGORITHMS ==> Without(Words16In(x)) == Without(Words16In(y))
    ensures kind == KEY_SHARE ==> Without(SharesIn(x)) == Without(SharesIn(y))
  {
    hide List8Redrawn, List16Redrawn, SharesRedrawn, Without, Words8In, Words16In, SharesIn;
    if x != y {
      if kind == SUPPORTED_VERSIONS {
        List8SaysTheSame(x, y);
      } else if kind == KEY_SHARE {
        SharesSayTheSame(x, y);
      } else {
        List16SaysTheSame(x, y);
      }
    }
  }

  ghost predicate BodiesRedrawn(kind: uint16, xs: seq<seq<byte>>, ys: seq<seq<byte>>) {
    && |xs| == |ys|
    && forall i :: 0 <= i < |xs| ==> BodyRedrawn(kind, xs[i], ys[i])
  }

  /** Kind by kind, the same extensions up to a redraw of their bodies; reserved kinds do not matter. */
  ghost predicate Reshuffled(a: seq<Extension>, b: seq<Extension>) {
    forall kind: uint16 :: !IsGREASE(kind) ==> BodiesRedrawn(kind, OfKind(a, kind), OfKind(b, kind))
  }

  /** Exchanging two neighbours of different kinds changes no kind's list. */
  lemma {:induction false} NeighboursMayPass(front: seq<Extension>, x: Extension, y: Extension,
                                             back: seq<Extension>, kind: uint16)
    requires x.kind != y.kind
    ensures OfKind(front + [x, y] + back, kind) == OfKind(front + [y, x] + back, kind)
  {
    if front == [] {
      var s, t := front + [x, y] + back, front + [y, x] + back;
      assert s[1..] == [y] + back && s[1..][1..] == back;
      assert t[1..] == [x] + back && t[1..][1..] == back;
    } else {
      NeighboursMayPass(front[1..], x, y, back, kind);
      assert (front + [x, y] + back)[1..] == front[1..] + [x, y] + back;
      assert (front + [y, x] + back)[1..] == front[1..] + [y, x] + back;
    }
  }

  lemma {:induction false} FirstOfKind(exts: seq<Extension>, kind: uint16)
    ensures First(exts, kind) == (var xs := OfKind(exts, kind); if xs == [] then None else Some(xs[0]))
  {
    if exts != [] {
      FirstOfKind(exts[1..], kind);
    }
  }

  lemma {:induction false} TypesCount(exts: seq<Extension>, kind: uint16)
    ensures multiset(Types(exts))[kind] == |OfKind(exts, kind)|
  {
    if exts != [] {
      TypesCount(exts[1..], kind);
      assert Types(exts) == [exts[0].kind] + Types(exts[1..]);
    }
  }

  lemma SameTypes(a: seq<Extension>, b: seq<Extension>)
    requires Reshuffled(a, b)
    ensures multiset(Without(Types(a))) == multiset(Without(Types(b)))
  {
    hide IsGREASE, OfKind, BodyRedrawn, Types, Without;
    var s, t := multiset(Without(Types(a))), multiset(Without(Types(b)));
    forall v: uint16
      ensures s[v] == t[v]
    {
      WithoutCounts(Types(a), v);
      WithoutCounts(Types(b), v);
      TypesCount(a, v);
      TypesCount(b, v);
    }
  }

  lemma SameFirst(a: seq<Extension>, b: seq<Extension>, kind: uint16)
    requires Reshuffled(a, b) && !IsGREASE(kind)
    ensures First(a, kind).None? <==> First(b, kind).None?
    ensures First(a, kind).Some? ==> BodyRedrawn(kind, First(a, kind).value, First(b, kind).value)
  {
    hide IsGREASE, OfKind, BodyRedrawn;
    FirstOfKind(a, kind);
    FirstOfKind(b, kind);
    assert BodiesRedrawn(kind, OfKind(a, kind), OfKind(b, kind));
  }

  lemma FirstSays(a: seq<Extension>, b: seq<Extension>, kind: uint16)
    requires Reshuffled(a, b) && !IsGREASE(kind)
    ensures First(a, kind).None? <==> First(b, kind).None?
    ensures First(a, kind) == First(b, kind) ||
            kind in {SUPPORTED_VERSIONS, SUPPORTED_GROUPS, SIGNATURE_ALGORITHMS, KEY_SHARE}
    ensures First(a, kind).Some? ==>
              var x, y := First(a, kind).value, First(b, kind).value;
              && (kind == SUPPORTED_VERSIONS ==> Without(Words8In(x)) == Without(Words8In(y)))
              && (kind == SUPPORTED_GROUPS || kind == SIGNATURE_ALGORITHMS ==>
                    Without(Words16In(x)) == Without(Words16In(y)))
              && (kind == KEY_SHARE ==> Without(SharesIn(x)) == Without(SharesIn(y)))
  {
    hide Reshuffled, First, Without, Words8In, Words16In, SharesIn, BodyRedrawn, IsGREASE;
    SameFirst(a, b, kind);
    if First(a, kind).Some? {
      RedrawnBodySays(kind, First(a, kind).value, First(b, kind).value);
    }
  }

  /** Every list the hello is asked for is the same after a reshuffle, up to GREASE where the browser draws
      it and exactly where it does not. */
  lemma SameAnswers(a: seq<Extension>, b: seq<Extension>)
    requires Reshuffled(a, b)
    ensures ServerName(a) == ServerName(b) && Protocols(a) == Protocols(b) && Settings(a) == Settings(b)
    ensures PointFormats(a) == PointFormats(b) && PskModes(a) == PskModes(b) && Compressions(a) == Compressions(b)
    ensures Without(Versions(a)) == Without(Versions(b))
    ensures Without(SupportedGroups(a)) == Without(SupportedGroups(b))
    ensures Without(Signatures(a)) == Without(Signatures(b))
    ensures Without(Shares(a)) == Without(Shares(b))
  {
    hide Reshuffled, First, Without, Words8In, Words16In, SharesIn, ProtocolsIn, BytesIn, ServerNameIn, BodyRedrawn;
    FirstSays(a, b, SERVER_NAME);
    FirstSays(a, b, ALPN);
    FirstSays(a, b, APPLICATION_SETTINGS);
    FirstSays(a, b, APPLICATION_SETTINGS_OLD);
    FirstSays(a, b, EC_POINT_FORMATS);
    FirstSays(a, b, PSK_MODES);
    FirstSays(a, b, COMPRESS_CERTIFICATE);
    FirstSays(a, b, SUPPORTED_VERSIONS);
    FirstSays(a, b, SUPPORTED_GROUPS);
    FirstSays(a, b, SIGNATURE_ALGORITHMS);
    FirstSays(a, b, KEY_SHARE);
  }

  lemma KeptSnoc(types: seq<uint16>, last: uint16)
    ensures Kept([]) == []
    ensures Kept(types + [last]) == Kept(types) + (if last == SERVER_NAME || last == ALPN then [] else [last])
  {
    assert (types + [last])[..|types|] == types;
  }

  lemma {:induction false} KeptCounts(types: seq<uint16>, v: uint16)
    ensures multiset(Kept(types))[v] == if v == SERVER_NAME || v == ALPN then 0 else multiset(types)[v]
  {
    hide Kept;
    if types == [] {
      KeptSnoc([], 0);
    } else {
      var front, last := types[..|types| - 1], types[|types| - 1];
      assert types == front + [last];
      KeptSnoc(front, last);
      KeptCounts(front, v);
    }
  }

  lemma SameKept(s: seq<uint16>, t: seq<uint16>)
    requires multiset(s) == multiset(t)
    ensures multiset(Kept(s)) == multiset(Kept(t))
  {
    hide Kept;
    forall v: uint16
      ensures multiset(Kept(s))[v] == multiset(Kept(t))[v]
    {
      KeptCounts(s, v);
      KeptCounts(t, v);
    }
  }

  lemma SameLength(s: seq<uint16>, t: seq<uint16>)
    requires multiset(s) == multiset(t)
    ensures |s| == |t|
  {
    assert |multiset(s)| == |multiset(t)|;
  }

  lemma RawIgnoresKindOrder(a: Hello, b: Hello, hash: string -> string)
    requires a.legacyVersion == b.legacyVersion
    requires multiset(Without(a.cipherSuites)) == multiset(Without(b.cipherSuites))
    requires Reshuffled(a.extensions, b.extensions)
    ensures Raw(a) == Raw(b) && Hashes(a, hash) == Hashes(b, hash)
  {
    hide Reshuffled, Without, Types, Versions, Signatures, ServerName, Protocols, JoinHexSorted, JoinHex,
         ProtocolEnds, Kept, CountTo99;
    SameAnswers(a.extensions, b.extensions);
    SameTypes(a.extensions, b.extensions);
    SameKept(Without(Types(a.extensions)), Without(Types(b.extensions)));
    SameLength(Without(Types(a.extensions)), Without(Types(b.extensions)));
    SameLength(Without(a.cipherSuites), Without(b.cipherSuites));
    SortedHexIsCanonical(Without(a.cipherSuites), Without(b.cipherSuites));
    SortedHexIsCanonical(Hashed(a), Hashed(b));
    assert Prefix(a) == Prefix(b);
  }

  // ---------------------------------------------------------------------------------------------
  // A permutation and a redraw.

  /** One extension before and after a redraw. A reserved kind may become another, with any body. */
  ghost predicate ExtensionRedrawn(x: Extension, y: Extension) {
    || (IsGREASE(x.kind) && IsGREASE(y.kind))
    || (x.kind == y.kind && BodyRedrawn(x.kind, x.data, y.data))
  }

  /** The places of `a` in the order in which `b` has them. */
  ghost predicate IsPermutation(places: seq<nat>, n: nat) {
    && |places| == n
    && (forall i :: 0 <= i < n ==> places[i] < n)
    && (forall i, j :: 0 <= i < j < n ==> places[i] != places[j])
  }

  ghost predicate ShuffledBy(a: seq<Extension>, b: seq<Extension>, places: seq<nat>) {
    && |a| == |b|
    && IsPermutation(places, |a|)
    && (forall i :: 0 <= i < |b| ==> ExtensionRedrawn(a[places[i]], b[i]))
    && (forall i, j :: 0 <= i < j < |b| && b[i].kind == b[j].kind && !IsGREASE(b[i].kind) ==> places[i] < places[j])
  }

  /** The extensions of another connection: permuted, but not among those of one kind, and redrawn. */
  ghost predicate Shuffled(a: seq<Extension>, b: seq<Extension>) {
    exists places :: ShuffledBy(a, b, places)
  }

  /** Where the extensions of a kind stand among the first `n`. */
  function PlacesOf(exts: seq<Extension>, kind: uint16, n: nat): (ps: seq<nat>)
    requires n <= |exts|
    ensures forall i :: 0 <= i < |ps| ==> ps[i] < n && exts[ps[i]].kind == kind
  {
    if n == 0 then []
    else PlacesOf(exts, kind, n - 1) + (if exts[n - 1].kind == kind then [n - 1] else [])
  }

  lemma {:induction false} PlacesIncrease(exts: seq<Extension>, kind: uint16, n: nat)
    requires n <= |exts|
    ensures forall i, j :: 0 <= i < j < |PlacesOf(exts, kind, n)| ==> PlacesOf(exts, kind, n)[i] < PlacesOf(exts, kind, n)[j]
    ensures forall p :: p in PlacesOf(exts, kind, n) <==> 0 <= p < n && exts[p].kind == kind
  {
    if n > 0 {
      PlacesIncrease(exts, kind, n - 1);
    }
  }

  lemma OfKindCons(e: Extension, exts: seq<Extension>, kind: uint16)
    ensures OfKind([], kind) == []
    ensures OfKind([e] + exts, kind) == (if e.kind == kind then [e.data] else []) + OfKind(exts, kind)
  {
    assert ([e] + exts)[1..] == exts;
  }

  lemma {:induction false} OfKindSnoc(exts: seq<Extension>, e: Extension, kind: uint16)
    ensures OfKind(exts + [e], kind) == OfKind(exts, kind) + (if e.kind == kind then [e.data] else [])
  {
    hide OfKind;
    OfKindCons(e, [], kind);
    assert [e] + [] == [e] && [] + [e] == [e];
    if exts != [] {
      var x, rest := exts[0], exts[1..];
      OfKindCons(x, rest + [e], kind);
      OfKindCons(x, rest, kind);
      OfKindSnoc(rest, e, kind);
      assert exts == [x] + rest && exts + [e] == [x] + (rest + [e]);
      var own, mine := if x.kind == kind then [x.data] else [], if e.kind == kind then [e.data] else [];
      assert own + (OfKind(rest, kind) + mine) == (own + OfKind(rest, kind)) + mine;
    }
  }

  /** The bodies of a kind are those at its places. */
  lemma {:induction false} OfKindAt(exts: seq<Extension>, kind: uint16, n: nat)
    requires n <= |exts|
    ensures var ps, bodies := PlacesOf(exts, kind, n), OfKind(exts[..n], kind);
            |bodies| == |ps| && forall i :: 0 <= i < |ps| ==> bodies[i] == exts[ps[i]].data
  {
    if n > 0 {
      OfKindAt(exts, kind, n - 1);
      assert exts[..n] == exts[..n - 1] + [exts[n - 1]];
      OfKindSnoc(exts[..n - 1], exts[n - 1], kind);
      hide OfKind;
    }
  }

  function Image(places: seq<nat>): set<nat> {
    if places == [] then {} else Image(places[..|places| - 1]) + {places[|places| - 1]}
  }

  function Below(n: nat): set<nat> {
    if n == 0 then {} else Below(n - 1) + {n - 1}
  }

  lemma {:induction false} ImageHas(places: seq<nat>)
    ensures forall p :: p in Image(places) <==> p in places
    ensures (forall i, j :: 0 <= i < j < |places| ==> places[i] != places[j]) ==> |Image(places)| == |places|
  {
    if places != [] {
      var front, last := places[..|places| - 1], places[|places| - 1];
      assert places == front + [last];
      ImageHas(front);
    }
  }

  lemma {:induction false} BelowHas(n: nat)
    ensures forall p :: p in Below(n) <==> 0 <= p < n
    ensures |Below(n)| == n
  {
    if n > 0 {
      BelowHas(n - 1);
    }
  }

  /** A permutation of n places reaches every place. */
  lemma Reaches(places: seq<nat>, n: nat, p: nat)
    requires IsPermutation(places, n) && p < n
    ensures p in places
  {
    hide Image, Below;
    ImageHas(places);
    BelowHas(n);
    SubsetOfSameSize(Image(places), Below(n));
  }

  lemma SubsetOfSameSize(a: set<nat>, b: set<nat>)
    requires a <= b && |a| == |b|
    ensures a == b
  {
    assert |b - a| == |b| - |a|;
    assert b == a + (b - a);
  }

  lemma HasItsHead(s: seq<nat>)
    ensures s == [] || s[0] in s
  {
  }

  /** Two rising lists of the same numbers are one list. */
  lemma {:induction false} RisingIsUnique(a: seq<nat>, b: seq<nat>)
    requires forall i, j :: 0 <= i < j < |a| ==> a[i] < a[j]
    requires forall i, j :: 0 <= i < j < |b| ==> b[i] < b[j]
    requires forall p :: p in a <==> p in b
    ensures a == b
  {
    HasItsHead(a);
    HasItsHead(b);
    if a != [] {
      assert a[0] in b && b != [];
      assert b[0] in a;
      assert a[0] == b[0];
      forall p
        ensures p in a[1..] <==> p in b[1..]
      {
        assert p in a[1..] <==> p in a && p != a[0] by {
          assert a == [a[0]] + a[1..];
        }
        assert p in b[1..] <==> p in b && p != b[0] by {
          assert b == [b[0]] + b[1..];
        }
      }
      RisingIsUnique(a[1..], b[1..]);
    }
  }

  /** Where the extensions of a kind in `b` came from, in the order of `b`. */
  function Origins(places: seq<nat>, at: seq<nat>): (os: seq<nat>)
    requires forall i :: 0 <= i < |at| ==> at[i] < |places|
    ensures |os| == |at| && forall i :: 0 <= i < |at| ==> os[i] == places[at[i]]
  {
    if at == [] then [] else [places[at[0]]] + Origins(places, at[1..])
  }

  lemma KindKept(a: seq<Extension>, b: seq<Extension>, places: seq<nat>, kind: uint16, i: nat)
    requires ShuffledBy(a, b, places) && !IsGREASE(kind) && i < |b|
    ensures b[i].kind == kind <==> a[places[i]].kind == kind
    ensures b[i].kind == kind ==> BodyRedrawn(kind, a[places[i]].data, b[i].data)
  {
    hide BodyRedrawn, IsGREASE;
    assert ExtensionRedrawn(a[places[i]], b[i]);
  }

  lemma OriginsRise(a: seq<Extension>, b: seq<Extension>, places: seq<nat>, kind: uint16, i: nat, j: nat)
    requires ShuffledBy(a, b, places) && !IsGREASE(kind)
    requires var at := PlacesOf(b, kind, |b|); i < j < |at|
    ensures var at := PlacesOf(b, kind, |b|); places[at[i]] < places[at[j]]
  {
    hide IsGREASE, ExtensionRedrawn, IsPermutation, PlacesOf;
    PlacesIncrease(b, kind, |b|);
    var at := PlacesOf(b, kind, |b|);
    assert at[i] < at[j] < |b| && b[at[i]].kind == b[at[j]].kind == kind;
  }

  lemma OriginIsAPlace(a: seq<Extension>, b: seq<Extension>, places: seq<nat>, kind: uint16, i: nat)
    requires ShuffledBy(a, b, places) && !IsGREASE(kind)
    requires i < |PlacesOf(b, kind, |b|)|
    ensures places[PlacesOf(b, kind, |b|)[i]] in PlacesOf(a, kind, |a|)
  {
    hide IsGREASE, PlacesOf;
    PlacesIncrease(a, kind, |a|);
    KindKept(a, b, places, kind, PlacesOf(b, kind, |b|)[i]);
  }

  lemma PlaceIsAnOrigin(a: seq<Extension>, b: seq<Extension>, places: seq<nat>, kind: uint16, p: nat)
    requires ShuffledBy(a, b, places) && !IsGREASE(kind) && p in PlacesOf(a, kind, |a|)
    ensures p in Origins(places, PlacesOf(b, kind, |b|))
  {
    hide IsGREASE, PlacesOf, Origins, ExtensionRedrawn;
    PlacesIncrease(a, kind, |a|);
    PlacesIncrease(b, kind, |b|);
    Reaches(places, |a|, p);
    var i :| 0 <= i < |places| && places[i] == p;
    KindKept(a, b, places, kind, i);
    var at := PlacesOf(b, kind, |b|);
    assert i in at;
    var k :| 0 <= k < |at| && at[k] == i;
    assert Origins(places, at)[k] == p;
  }

  lemma OriginsAreThePlaces(a: seq<Extension>, b: seq<Extension>, places: seq<nat>, kind: uint16)
    requires ShuffledBy(a, b, places) && !IsGREASE(kind)
    ensures Origins(places, PlacesOf(b, kind, |b|)) == PlacesOf(a, kind, |a|)
  {
    var at, from := PlacesOf(b, kind, |b|), PlacesOf(a, kind, |a|);
    assert forall i :: 0 <= i < |at| ==> at[i] < |places|;
    hide IsGREASE, PlacesOf, Origins, ShuffledBy;
    var origins := Origins(places, at);
    PlacesIncrease(a, kind, |a|);
    forall i, j | 0 <= i < j < |origins|
      ensures origins[i] < origins[j]
    {
      OriginsRise(a, b, places, kind, i, j);
    }
    forall i | 0 <= i < |origins|
      ensures origins[i] in from
    {
      OriginIsAPlace(a, b, places, kind, i);
    }
    forall p | p in from
      ensures p in origins
    {
      PlaceIsAnOrigin(a, b, places, kind, p);
    }
    RisingIsUnique(origins, from);
  }

  /** A permutation and redraw leaves every kind's list, redrawn. */
  lemma ShuffleIsByKind(a: seq<Extension>, b: seq<Extension>)
    requires Shuffled(a, b)
    ensures Reshuffled(a, b)
  {
    hide BodyRedrawn, IsGREASE, OfKind, PlacesOf;
    var places :| ShuffledBy(a, b, places);
    forall kind: uint16 | !IsGREASE(kind)
      ensures BodiesRedrawn(kind, OfKind(a, kind), OfKind(b, kind))
    {
      var at, from := PlacesOf(b, kind, |b|), PlacesOf(a, kind, |a|);
      OriginsAreThePlaces(a, b, places, kind);
      OfKindAt(a, kind, |a|);
      OfKindAt(b, kind, |b|);
      assert a[..|a|] == a && b[..|b|] == b;
      forall i | 0 <= i < |at|
        ensures BodyRedrawn(kind, OfKind(a, kind)[i], OfKind(b, kind)[i])
      {
        assert from[i] == places[at[i]];
        KindKept(a, b, places, kind, at[i]);
      }
    }
  }

  /** JA4 does not see what a browser does between two connections: a permutation of the extensions that keeps
      those of one kind in their order, any reordering of the ciphers, and fresh reserved values and keys
      everywhere; for whatever hash. */
  lemma RawIgnoresTheShuffle(a: Hello, b: Hello, ciphers: seq<uint16>, hash: string -> string)
    requires a.legacyVersion == b.legacyVersion
    requires multiset(ciphers) == multiset(a.cipherSuites) && Redrawn(ciphers, b.cipherSuites)
    requires Shuffled(a.extensions, b.extensions)
    ensures Raw(a) == Raw(b) && Hashes(a, hash) == Hashes(b, hash)
  {
    hide Raw, Hashes, Shuffled, Reshuffled, Redrawn, Without;
    ShuffleIsByKind(a.extensions, b.extensions);
    RedrawKeepsTheRest(ciphers, b.cipherSuites);
    SameWithout(ciphers, a.cipherSuites);
    RawIgnoresKindOrder(a, b, hash);
  }

  lemma SameWithout(vs: seq<uint16>, ws: seq<uint16>)
    requires multiset(vs) == multiset(ws)
    ensures multiset(Without(vs)) == multiset(Without(ws))
  {
    hide Without, IsGREASE;
    forall v: uint16
      ensures multiset(Without(vs))[v] == multiset(Without(ws))[v]
    {
      WithoutCounts(vs, v);
      WithoutCounts(ws, v);
    }
  }
}
