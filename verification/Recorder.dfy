/** The connection wrapper that keeps the bytes of a stream until a ClientHello parses. */
module Recorder {
  import opened Common
  import opened Bytes
  import opened ClientHello
  import opened HelloRoundTrip

  const MAX_RECORDED := 0x1_0000

  datatype State = State(buffered: seq<byte>, done: bool, hello: Option<Hello>)

  const FRESH := State([], false, None)

  /** One read that brought these bytes. */
  function AfterRead(s: State, chunk: seq<byte>): State {
    if chunk == [] || s.done then s
    else
      var all := s.buffered + chunk;
      if Parse(all).Ok? then State([], true, Some(Parse(all).value))
      else if |all| > MAX_RECORDED then State([], true, s.hello)
      else s.(buffered := all)
  }

  class RecordingConn {
    var buffered: seq<byte>
    var done: bool
    var hello: Option<Hello>

    function Model(): State
      reads this
    {
      State(buffered, done, hello)
    }

    constructor ()
      ensures Model() == FRESH
    {
      buffered, done, hello := [], false, None;
    }

    /** `chunk` is what the inner connection's read delivered, possibly nothing. */
    method Read(chunk: seq<byte>) returns (n: nat)
      modifies this
      ensures n == |chunk| && Model() == AfterRead(old(Model()), chunk)
    {
      n := |chunk|;
      if n > 0 && !done {
        buffered := buffered + chunk;
        var parsed := ParseClientHello(buffered);
        if parsed.Ok? {
          hello, done := Some(parsed.value), true;
          buffered := [];
        } else if |buffered| > MAX_RECORDED {
          done, buffered := true, [];
        }
      }
    }
  }

  // ---------------------------------------------------------------------------------------------
  // A whole stream, in whatever pieces it arrives.

  function Joined(chunks: seq<seq<byte>>): seq<byte> {
    if chunks == [] then [] else Joined(chunks[..|chunks| - 1]) + chunks[|chunks| - 1]
  }

  function AfterReads(chunks: seq<seq<byte>>): State {
    if chunks == [] then FRESH else AfterRead(AfterReads(chunks[..|chunks| - 1]), chunks[|chunks| - 1])
  }

  lemma {:induction false} JoinedPrefix(chunks: seq<seq<byte>>, n: nat)
    requires n <= |chunks|
    ensures Joined(chunks[..n]) <= Joined(chunks)
    decreases |chunks|
  {
    if n < |chunks| {
      var front := chunks[..|chunks| - 1];
      JoinedPrefix(front, n);
      assert front[..n] == chunks[..n];
    } else {
      assert chunks[..n] == chunks;
    }
  }

  /** The n-th read ended past the limit with the first k bytes of the stream not yet all there. */
  ghost predicate OverranAt(chunks: seq<seq<byte>>, n: nat, k: nat) {
    n <= |chunks| && MAX_RECORDED < |Joined(chunks[..n])| < k
  }

  ghost predicate Overran(chunks: seq<seq<byte>>, k: nat) {
    exists n :: OverranAt(chunks, n, k)
  }

  lemma OverranEarlier(front: seq<seq<byte>>, chunk: seq<byte>, n: nat, k: nat)
    requires n <= |front|
    ensures OverranAt(front + [chunk], n, k) <==> OverranAt(front, n, k)
  {
    hide Joined;
    assert (front + [chunk])[..n] == front[..n];
  }

  lemma OverranAtTheEnd(chunks: seq<seq<byte>>, k: nat)
    ensures OverranAt(chunks, |chunks|, k) <==> MAX_RECORDED < |Joined(chunks)| < k
  {
    hide Joined;
    assert chunks[..|chunks|] == chunks;
  }

  lemma OverranStays(front: seq<seq<byte>>, chunk: seq<byte>, k: nat)
    requires Overran(front, k)
    ensures Overran(front + [chunk], k)
  {
    NotPastTheEnd(front, k);
    hide OverranAt;
    var n: nat :| OverranAt(front, n, k);
    OverranEarlier(front, chunk, n, k);
  }

  lemma OverranWhere(front: seq<seq<byte>>, chunk: seq<byte>, k: nat)
    requires Overran(front + [chunk], k)
    ensures Overran(front, k) || OverranAt(front + [chunk], |front| + 1, k)
  {
    NotPastTheEnd(front + [chunk], k);
    hide OverranAt;
    var n: nat :| OverranAt(front + [chunk], n, k);
    if n <= |front| {
      OverranEarlier(front, chunk, n, k);
    }
  }

  lemma OverranLonger(chunks: seq<seq<byte>>, k: nat)
    requires chunks != []
    ensures Overran(chunks, k) <==>
            Overran(chunks[..|chunks| - 1], k) || MAX_RECORDED < |Joined(chunks)| < k
  {
    var front, chunk := chunks[..|chunks| - 1], chunks[|chunks| - 1];
    assert chunks == front + [chunk];
    OverranAtTheEnd(chunks, k);
    if Overran(front, k) {
      OverranStays(front, chunk, k);
    }
    hide Joined, OverranAt;
    if Overran(chunks, k) {
      OverranWhere(front, chunk, k);
    }
  }

  lemma NotPastTheEnd(chunks: seq<seq<byte>>, k: nat)
    ensures forall n: nat :: OverranAt(chunks, n, k) ==> n <= |chunks|
  {
  }

  /** A hello is no shorter than the prefix it parses from, and longer prefixes parse to it as well. */
  lemma PrefixParses(stream: seq<byte>, n: nat)
    requires n <= |stream| && Parse(stream[..n]).Ok?
    ensures Parse(stream) == Parse(stream[..n])
    ensures |Parse(stream).value.raw| <= n
  {
    hide Parse;
    var front, back := stream[..n], stream[n..];
    assert stream == front + back;
    ParseStable(front, back);
    ParseOwnRaw(front);
  }

  lemma WholeHelloParses(stream: seq<byte>, n: nat)
    requires n <= |stream| && Parse(stream).Ok? && n >= |Parse(stream).value.raw|
    ensures Parse(stream[..n]) == Parse(stream)
  {
    hide Parse;
    ParseOwnRaw(stream);
    var raw := Parse(stream).value.raw;
    ParseStable(raw, stream[|raw|..n]);
    assert stream[..n] == raw + stream[|raw|..n];
  }

  /** What the recorder knows after any reads: it is done with the hello, it gave up past the limit, or
      it holds the stream so far, which is within the limit. */
  ghost predicate Knows(s: State, chunks: seq<seq<byte>>) {
    var stream := Joined(chunks);
    if Parse(stream).Ok? then
      s == State([], true, if Overran(chunks, |Parse(stream).value.raw|) then None
                           else Some(Parse(stream).value))
    else if |stream| > MAX_RECORDED then
      s == State([], true, None)
    else
      s == State(stream, false, None)
  }

  lemma {:induction false} RecorderKnows(chunks: seq<seq<byte>>)
    ensures Knows(AfterReads(chunks), chunks)
    decreases |chunks|
  {
    if chunks != [] {
      var front := chunks[..|chunks| - 1];
      var chunk := chunks[|chunks| - 1];
      RecorderKnows(front);
      KnowsAfterOneMore(AfterReads(front), front, chunk);
      assert chunks == front + [chunk];
    }
  }

  lemma KnowsAfterOneMore(s: State, front: seq<seq<byte>>, chunk: seq<byte>)
    requires Knows(s, front)
    ensures Knows(AfterRead(s, chunk), front + [chunk])
  {
    hide Parse;
    var chunks := front + [chunk];
    assert chunks[..|front|] == front;
    var before := Joined(front);
    var stream := Joined(chunks);
    assert stream == before + chunk && stream[..|before|] == before;
    if chunk == [] {
      assert stream == before;
    }
    if Parse(before).Ok? {
      PrefixParses(stream, |before|);
      OverranLonger(chunks, |Parse(stream).value.raw|);
    } else if Parse(stream).Ok? {
      var k := |Parse(stream).value.raw|;
      OverranLonger(chunks, k);
      if k <= |before| {
        WholeHelloParses(stream, |before|);
      }
      ParseOwnRaw(stream);
      NotOverran(front, k);
    }
  }

  lemma NotOverran(front: seq<seq<byte>>, k: nat)
    requires |Joined(front)| < k
    ensures Overran(front, k) <==> |Joined(front)| > MAX_RECORDED
  {
    OverranAtTheEnd(front, k);
    if n: nat :| OverranAt(front, n, k) {
      JoinedPrefix(front, n);
    }
  }

  /** The bound on memory: whatever arrives, in whatever pieces, the buffer never outgrows the limit. */
  lemma BufferIsBounded(chunks: seq<seq<byte>>)
    ensures |AfterReads(chunks).buffered| <= 65536
  {
    RecorderKnows(chunks);
  }

  /** What is recorded is the hello of the stream, and it is recorded unless some read ended past the
      limit before the hello did. */
  lemma RecordsUnlessOverrun(chunks: seq<seq<byte>>)
    ensures var parsed := Parse(Joined(chunks));
            AfterReads(chunks).hello ==
            if parsed.Ok? && !Overran(chunks, |parsed.value.raw|) then Some(parsed.value) else None
  {
    RecorderKnows(chunks);
  }

  /** That is, unless after some read more than 65536 bytes were there, and fewer than the hello has. */
  lemma WhatOverrunMeans(chunks: seq<seq<byte>>, k: nat)
    ensures Overran(chunks, k) <==> exists n :: 0 <= n <= |chunks| && 65536 < |Joined(chunks[..n])| < k
  {
    hide Joined;
    NotPastTheEnd(chunks, k);
    if n :| 0 <= n <= |chunks| && 65536 < |Joined(chunks[..n])| < k {
      assert OverranAt(chunks, n, k);
    }
    if n: nat :| OverranAt(chunks, n, k) {
      assert 65536 < |Joined(chunks[..n])| < k;
    }
  }

  /** The recorder is independent of how the stream is cut up exactly when the hello ends no later than
      one byte past the limit: then every chunking records it; otherwise a read that stops one byte
      past the limit loses it. */
  lemma ChunkingMattersOnlyPastTheLimit(stream: seq<byte>)
    requires Parse(stream).Ok?
    ensures (forall chunks :: Joined(chunks) == stream ==> AfterReads(chunks).hello == Some(Parse(stream).value))
            <==> |Parse(stream).value.raw| <= 65537
  {
    hide Parse, AfterReads;
    var k := |Parse(stream).value.raw|;
    ParseOwnRaw(stream);
    if k <= MAX_RECORDED + 1 {
      forall chunks | Joined(chunks) == stream
        ensures AfterReads(chunks).hello == Some(Parse(stream).value)
      {
        RecordsUnlessOverrun(chunks);
      }
    } else {
      var chunks := [stream[..MAX_RECORDED + 1], stream[MAX_RECORDED + 1..]];
      RecordsUnlessOverrun(chunks);
      JoinedTwo(chunks[0], chunks[1]);
      assert stream == chunks[0] + chunks[1];
      OverranInTwo(chunks[0], chunks[1], k);
    }
  }

  /** And such hellos exist: one that is recorded when it arrives at once and lost when it arrives in two. */
  lemma ALongHelloIsLost() returns (stream: seq<byte>, chunks: seq<seq<byte>>)
    ensures Parse(stream).Ok? && Joined(chunks) == Joined([stream]) == stream
    ensures AfterReads([stream]).hello == Some(Parse(stream).value)
    ensures AfterReads(chunks).hello == None
  {
    stream := LongHelloParses();
    hide Parse, AfterReads, Joined, Overran;
    var front, back := stream[..MAX_RECORDED + 1], stream[MAX_RECORDED + 1..];
    chunks := [front, back];
    JoinedOne(stream);
    JoinedTwo(front, back);
    assert stream == front + back;
    RecordsUnlessOverrun([stream]);
    RecordsUnlessOverrun(chunks);
    NoOverrunAtOnce(stream);
    OverranInTwo(front, back, |stream|);
  }

  lemma JoinedOne(chunk: seq<byte>)
    ensures Joined([chunk]) == chunk
  {
    assert [chunk][..0] == [] && Joined([]) + chunk == chunk;
  }

  lemma JoinedTwo(front: seq<byte>, back: seq<byte>)
    ensures Joined([front, back]) == front + back
  {
    JoinedOne(front);
    assert [front, back][..1] == [front];
  }

  lemma OverranInTwo(front: seq<byte>, back: seq<byte>, k: nat)
    requires MAX_RECORDED < |front| < k
    ensures Overran([front, back], k)
  {
    JoinedOne(front);
    assert [front, back][..1] == [front];
    assert OverranAt([front, back], 1, k);
  }

  lemma NoOverrunAtOnce(stream: seq<byte>)
    ensures !Overran([stream], |stream|)
  {
    JoinedOne(stream);
    forall n: nat
      ensures !OverranAt([stream], n, |stream|)
    {
      if n == 0 {
        assert [stream][..0] == [];
      } else if n == 1 {
        assert [stream][..1] == [stream];
      }
    }
  }
}
