/** Bytes, big-endian integers and length-prefixed vectors. */
module Bytes {
  import opened Common

  type byte = x: int | 0 <= x < 256

  type uint16 = x: int | 0 <= x < 0x1_0000

  function U16(s: seq<byte>): uint16
    requires |s| >= 2
  {
    s[0] as int * 256 + s[1] as int
  }

  function U24(s: seq<byte>): nat
    requires |s| >= 3
  {
    s[0] as int * 0x1_0000 + s[1] as int * 256 + s[2] as int
  }

  function Put16(n: uint16): (s: seq<byte>)
    ensures |s| == 2 && U16(s) == n
  {
    [n / 256, n % 256]
  }

  function Put24(n: nat): (s: seq<byte>)
    requires n < 0x100_0000
    ensures |s| == 3 && U24(s) == n
  {
    [n / 0x1_0000, n / 256 % 256, n % 256]
  }

  lemma Put16Inverse(s: seq<byte>)
    requires |s| == 2
    ensures Put16(U16(s)) == s
  {
  }

  lemma Put24Inverse(s: seq<byte>)
    requires |s| == 3
    ensures U24(s) < 0x100_0000 && Put24(U24(s)) == s
  {
    var n := U24(s);
    assert n / 0x1_0000 == s[0];
    assert n / 256 == s[0] as int * 256 + s[1] as int;
  }

  /** What a read leaves: the value and the rest of the input. */
  datatype Read<+T> = Read(value: T, rest: seq<byte>)

  /** A vector behind a one-byte length. */
  function Vector8(s: seq<byte>): (r: Option<Read<seq<byte>>>)
    ensures r.Some? ==> |r.value.rest| < |s|
  {
    if |s| < 1 || |s| < 1 + s[0] as int then None
    else Some(Read(s[1..1 + s[0] as int], s[1 + s[0] as int..]))
  }

  /** A vector behind a two-byte length. */
  function Vector16(s: seq<byte>): (r: Option<Read<seq<byte>>>)
    ensures r.Some? ==> |r.value.rest| < |s|
  {
    if |s| < 2 || |s| < 2 + U16(s) then None
    else Some(Read(s[2..2 + U16(s)], s[2 + U16(s)..]))
  }

  function Put8Vector(v: seq<byte>): seq<byte>
    requires |v| < 256
  {
    [|v|] + v
  }

  function Put16Vector(v: seq<byte>): seq<byte>
    requires |v| < 0x1_0000
  {
    Put16(|v|) + v
  }

  lemma Vector8Put(v: seq<byte>, rest: seq<byte>)
    requires |v| < 256
    ensures Vector8(Put8Vector(v) + rest) == Some(Read(v, rest))
  {
    var s := Put8Vector(v) + rest;
    assert s[0] == |v| && s[1..1 + |v|] == v && s[1 + |v|..] == rest;
  }

  lemma Vector16Put(v: seq<byte>, rest: seq<byte>)
    requires |v| < 0x1_0000
    ensures Vector16(Put16Vector(v) + rest) == Some(Read(v, rest))
  {
    var s := Put16Vector(v) + rest;
    assert U16(s) == |v| && s[2..2 + |v|] == v && s[2 + |v|..] == rest;
  }

  lemma Vector8Took(s: seq<byte>)
    requires Vector8(s).Some?
    ensures var r := Vector8(s).value; |r.value| < 256 && s == Put8Vector(r.value) + r.rest
  {
  }

  lemma Vector16Took(s: seq<byte>)
    requires Vector16(s).Some?
    ensures var r := Vector16(s).value; |r.value| < 0x1_0000 && s == Put16Vector(r.value) + r.rest
  {
    Put16Inverse(s[..2]);
    assert U16(s[..2]) == U16(s);
    assert s == s[..2] + s[2..2 + U16(s)] + s[2 + U16(s)..];
  }

  /** A list of 16-bit values. An odd byte at the end is not looked at. */
  function Words(s: seq<byte>): seq<uint16> {
    if |s| < 2 then [] else [U16(s)] + Words(s[2..])
  }

  function PutWords(ws: seq<uint16>): (s: seq<byte>)
    ensures |s| == 2 * |ws|
  {
    if ws == [] then [] else Put16(ws[0]) + PutWords(ws[1..])
  }

  lemma {:induction false} WordsPut(ws: seq<uint16>)
    ensures Words(PutWords(ws)) == ws
  {
    if ws != [] {
      assert PutWords(ws)[2..] == PutWords(ws[1..]);
      assert U16(PutWords(ws)) == ws[0];
      WordsPut(ws[1..]);
    }
  }

  lemma {:induction false} WordsTook(s: seq<byte>)
    requires |s| % 2 == 0
    ensures PutWords(Words(s)) == s
  {
    if |s| >= 2 {
      WordsTook(s[2..]);
      Put16Inverse(s[..2]);
      assert U16(s[..2]) == U16(s);
      assert s == s[..2] + s[2..];
      assert Words(s)[1..] == Words(s[2..]);
    } else {
      assert s == [];
    }
  }
}
